/** The template evaluator of `src/config/template.rs`: every match of
    the pattern `\{\{\s*(.*?)\s*\}\}`, taken left to right without
    overlap, is replaced by the value of its content; unknown contents are
    left as they were. The pattern is replaced by an explicit scanner
    whose result is proved to be the regex's leftmost-first match. */
module Template {
  import opened Wrappers
  import opened Text
  import opened Sequences
  import opened ConfigModel

  /** Readings of the local clock taken by the `time` tokens; the clock is
      an input of the model. */
  datatype Clock = Clock(
    formatted: string,  // `%a %d %b %Y, %I:%M%p`
    iso8601: string,    // `%+`
    year: int,
    month: nat,
    day: nat,
    hour: nat,
    minute: nat)

  /** The arguments of `evaluate_template` besides the template itself;
      `order` is the iteration order of the defines map. */
  datatype Context = Context(
    computerName: string,
    language: string,
    minify: bool,
    defines: map<string, DefineValue>,
    order: seq<string>,
    clock: Clock)

  // The token grammar, on positions of the template

  /** Every character of `s[a..b]` is white space. */
  predicate WhiteBetween(s: string, a: int, b: int)
    requires 0 <= a <= b <= |s|
  {
    forall m :: a <= m < b ==> IsWhitespace(s[m])
  }

  /** No character of `s[a..b]` is a line break (`.` does not match one). */
  predicate LineBetween(s: string, a: int, b: int)
    requires 0 <= a <= b <= |s|
  {
    forall m :: a <= m < b ==> s[m] != '\n'
  }

  /** The end of the longest white-space run starting at `e`. */
  function SkipWhite(s: string, e: nat): (q: nat)
    requires e <= |s|
    ensures e <= q <= |s| && WhiteBetween(s, e, q)
    ensures q < |s| ==> !IsWhitespace(s[q])
    decreases |s| - e
  {
    if e < |s| && IsWhitespace(s[e]) then SkipWhite(s, e + 1) else e
  }

  /** A white-space run that stops before a non-white-space character or
      the end of the text is the longest one. */
  lemma RunEnd(s: string, j: nat, k: nat)
    requires j <= k <= |s| && WhiteBetween(s, j, k)
    requires k < |s| ==> !IsWhitespace(s[k])
    ensures SkipWhite(s, j) == k
  {
  }

  /** Once white space is skipped from `e`, `}}` follows. */
  predicate ClosesAt(s: string, e: nat)
    requires e <= |s|
  {
    var q := SkipWhite(s, e);
    q + 2 <= |s| && s[q] == '}' && s[q + 1] == '}'
  }

  /** One way the regex can match at the start of `s`: `{{`, white space
      `s[2..i]`, content `s[i..j]` without a line break, white space
      `s[j..k]`, then `}}` at `k`. */
  predicate RegexMatchAt(s: string, i: int, j: int, k: int) {
    2 <= i <= j <= k && k + 2 <= |s|
    && s[0] == '{' && s[1] == '{'
    && WhiteBetween(s, 2, i) && LineBetween(s, i, j) && WhiteBetween(s, j, k)
    && s[k] == '}' && s[k + 1] == '}'
  }

  /** The shortest content end at or after `e`, scanning over characters
      other than a line break. */
  function FindClose(s: string, e: nat): (r: Option<nat>)
    requires e <= |s|
    ensures r.Some? ==> e <= r.value <= |s| && ClosesAt(s, r.value) && LineBetween(s, e, r.value)
    ensures r.Some? ==> forall k :: e <= k < r.value ==> !ClosesAt(s, k)
    ensures r.None? ==> forall k :: e <= k <= |s| && LineBetween(s, e, k) ==> !ClosesAt(s, k)
    decreases |s| - e
  {
    if ClosesAt(s, e) then Some(e)
    else if e < |s| && s[e] != '\n' then FindClose(s, e + 1)
    else None
  }

  /** A match: where the content starts and ends and where the match ends. */
  datatype Token = Token(contentStart: nat, contentEnd: nat, end: nat)

  /** The regex's match at the start of `s`, if any. Leading white space is
      taken greedily and the content is the shortest that is followed by
      white space and `}}` — the leftmost-first choice of the regex. */
  function MatchPrefix(s: string): (r: Option<Token>)
    ensures r.Some? ==> RegexMatchAt(s, r.value.contentStart, r.value.contentEnd, r.value.end - 2)
    ensures r.Some? ==> forall i, j, k :: RegexMatchAt(s, i, j, k) ==> i <= r.value.contentStart
    ensures r.Some? ==> forall j, k :: RegexMatchAt(s, r.value.contentStart, j, k) ==> r.value.contentEnd <= j
  {
    if |s| >= 2 && s[0] == '{' && s[1] == '{' then
      var cs := SkipWhite(s, 2);
      match FindClose(s, cs)
      case None => None
      case Some(ce) =>
        MinimalContent(s, cs, ce);
        Some(Token(cs, ce, SkipWhite(s, ce) + 2))
    else None
  }

  lemma MinimalContent(s: string, cs: nat, ce: nat)
    requires cs <= ce <= |s| && forall k :: cs <= k < ce ==> !ClosesAt(s, k)
    ensures forall j, k :: RegexMatchAt(s, cs, j, k) ==> ce <= j
  {
    forall j, k | RegexMatchAt(s, cs, j, k) ensures ce <= j {
      RunEnd(s, j, k);
      assert ClosesAt(s, j);
    }
  }

  /** When no token starts `s`, the regex has no match there either. */
  lemma NoMatchIsComplete(s: string)
    requires MatchPrefix(s).None?
    ensures forall i, j, k :: !RegexMatchAt(s, i, j, k)
  {
    forall i, j, k ensures !RegexMatchAt(s, i, j, k) {
      MatchWitness(s, i, j, k);
    }
  }

  /** Any match of the regex at the start of `s` makes the scanner find a
      token. */
  lemma MatchWitness(s: string, i: int, j: int, k: int)
    ensures RegexMatchAt(s, i, j, k) ==> MatchPrefix(s).Some?
  {
    if RegexMatchAt(s, i, j, k) {
      var cs := SkipWhite(s, 2);
      RunEnd(s, j, k);
      if j < cs {
        // the content lies inside the leading white space, so the
        // closing braces follow that white space directly
        RunEnd(s, j, cs);
      } else {
        assert ClosesAt(s, j);
      }
    }
  }

  // Replacement values

  /** `k=v, `, the text `defines::list` gives one define. */
  function Entry(k: string, m: map<string, DefineValue>): string {
    if k in m then k + "=" + Stringify(m[k]) + ", " else ""
  }

  /** The entry of each key of `order`, in that order. */
  function Entries(order: seq<string>, m: map<string, DefineValue>): (r: seq<string>)
    ensures |r| == |order|
  {
    MapSeq(EntryOf(m), order)
  }

  function EntryOf(m: map<string, DefineValue>): string -> string {
    k => Entry(k, m)
  }

  /** The `defines::list` text for the given iteration order. */
  function ListText(order: seq<string>, m: map<string, DefineValue>): string {
    Concat(Entries(order, m))
  }

  /** `language::short`. */
  function LanguageShort(language: string): string {
    if language == "python" then "py" else if language == "cpp" then "cpp" else "?"
  }

  /** What the tokens stand for: the value of each fixed name, and the
      defines reached through `defines/<key>`. */
  datatype Values = Values(names: map<string, string>, defines: map<string, DefineValue>)

  /** The fixed names a token may hold. */
  const Names: set<string> := {
    "computer-name", "language", "language::short", "minify", "minify::short",
    "time", "time::iso8601", "time/year", "time/month", "time/day", "time/hour",
    "time/minute", "defines::list", "defines::count"}

  /** Every fixed name starts with one of `c`, `d`, `l`, `m`, `t` and none
      has `/` as its eighth character, so no `defines/<key>` content is a
      fixed name. */
  lemma NamesShape(n: string)
    ensures n in Names ==> |n| >= 4 && n[0] in "cdlmt" && (|n| <= 7 || n[7] != '/')
  {
  }

  /** The value `evaluate_template` gives a fixed name. */
  function NameValue(name: string, ctx: Context): string {
    if name == "computer-name" then ctx.computerName
    else if name == "language" then ctx.language
    else if name == "language::short" then LanguageShort(ctx.language)
    else if name == "minify" then (if ctx.minify then "true" else "false")
    else if name == "minify::short" then (if ctx.minify then "y" else "n")
    else if name == "time" then ctx.clock.formatted
    else if name == "time::iso8601" then ctx.clock.iso8601
    else if name == "time/year" then IntToString(ctx.clock.year)
    else if name == "time/month" then NatToString(ctx.clock.month)
    else if name == "time/day" then NatToString(ctx.clock.day)
    else if name == "time/hour" then NatToString(ctx.clock.hour)
    else if name == "time/minute" then NatToString(ctx.clock.minute)
    else if name == "defines::list" then ListText(ctx.order, ctx.defines)
    else NatToString(|ctx.defines|)
  }

  /** The values of `evaluate_template`'s tokens for the given arguments. */
  function ValuesOf(ctx: Context): (v: Values)
    ensures v.names.Keys == Names && v.defines == ctx.defines
  {
    Values(map name | name in Names :: NameValue(name, ctx), ctx.defines)
  }

  /** The contents that have a value; every other content leaves its match
      as it was. */
  predicate Recognised(content: string, v: Values) {
    content in v.names || (StartsWith(content, "defines/") && content[8..] in v.defines)
  }

  /** The value of one token: `content` is what the regex captured as
      `content`, `matched` the whole match. */
  function Substitute(content: string, matched: string, v: Values): string {
    if content in v.names then v.names[content]
    else if StartsWith(content, "defines/") && content[8..] in v.defines then
      Stringify(v.defines[content[8..]])
    else matched
  }

  /** The scan of `evaluate_template`: left to right, each token is replaced
      and the scan goes on after it, so replacement text is never scanned
      again. */
  function Evaluate(s: string, v: Values): string
    decreases |s|
  {
    if |s| == 0 then ""
    else
      match MatchPrefix(s)
      case Some(t) => Substitute(s[t.contentStart..t.contentEnd], s[..t.end], v) + Evaluate(s[t.end..], v)
      case None => [s[0]] + Evaluate(s[1..], v)
  }

  /** `evaluate_template`. */
  function EvaluateTemplate(s: string, ctx: Context): string {
    Evaluate(s, ValuesOf(ctx))
  }

  // What evaluation does

  /** Scanning from `e` over content free of `}` and line breaks, whose
      last character is not white space, stops exactly at `ce`. */
  lemma {:induction false} ScanContent(s: string, e: nat, ce: nat)
    requires e <= ce <= |s| && LineBetween(s, e, ce) && ClosesAt(s, ce)
    requires forall m :: e <= m < ce ==> s[m] != '}'
    requires e < ce ==> !IsWhitespace(s[ce - 1])
    ensures FindClose(s, e) == Some(ce)
    decreases ce - e
  {
    if e < ce {
      assert SkipWhite(s, e) < ce;
      ScanContent(s, e + 1, ce);
    }
  }

  /** The text of one token with the given spacing. */
  function TokenText(w1: string, c: string, w2: string): string {
    "{{" + w1 + c + w2 + "}}"
  }

  /** The content a token may have so that the regex captures exactly it:
      not empty, trimmed, without a line break and without `}`. */
  predicate PlainContent(c: string) {
    c != [] && !IsWhitespace(c[0]) && !IsWhitespace(c[|c| - 1]) && '\n' !in c && '}' !in c
  }

  /** A token at the start of the template is replaced by the value of its
      trimmed content and evaluation goes on after it. */
  lemma ExpandToken(w1: string, c: string, w2: string, rest: string, v: Values)
    requires AllWhitespace(w1) && AllWhitespace(w2) && PlainContent(c)
    ensures Evaluate(TokenText(w1, c, w2) + rest, v)
         == Substitute(c, TokenText(w1, c, w2), v) + Evaluate(rest, v)
  {
    var s := TokenText(w1, c, w2) + rest;
    var a := 2 + |w1|;
    var b := a + |c|;
    var q := b + |w2|;
    assert s[0] == '{' && s[1] == '{';
    assert forall m :: 2 <= m < a ==> s[m] == w1[m - 2];
    assert forall m :: a <= m < b ==> s[m] == c[m - a];
    assert forall m :: b <= m < q ==> s[m] == w2[m - b];
    assert s[q] == '}' && s[q + 1] == '}';
    assert s[a..b] == c && s[..q + 2] == TokenText(w1, c, w2) && s[q + 2..] == rest;
    RunEnd(s, 2, a);
    RunEnd(s, b, q);
    assert ClosesAt(s, b);
    ScanContent(s, a, b);
    MatchPrefixOf(s, a, b, q);
  }

  /** The token the scanner finds once the white-space runs and the
      content end are known. */
  lemma MatchPrefixOf(s: string, a: nat, b: nat, q: nat)
    requires 2 <= a <= b <= q <= |s| && s[0] == '{' && s[1] == '{'
    requires SkipWhite(s, 2) == a && FindClose(s, a) == Some(b) && SkipWhite(s, b) == q
    ensures MatchPrefix(s) == Some(Token(a, b, q + 2))
  {
  }

  /** A character that starts no token is copied. */
  lemma EvaluateSkip(s: string, v: Values)
    requires |s| > 0 && s[0] != '{'
    ensures Evaluate(s, v) == [s[0]] + Evaluate(s[1..], v)
  {
    assert MatchPrefix(s).None?;
  }

  /** Text without `{` is copied unchanged. */
  lemma {:induction false} LiteralPrefix(a: string, b: string, v: Values)
    requires '{' !in a
    ensures Evaluate(a + b, v) == a + Evaluate(b, v)
  {
    if a != [] {
      var s := a + b;
      assert s[0] == a[0] && s[1..] == a[1..] + b;
      EvaluateSkip(s, v);
      LiteralPrefix(a[1..], b, v);
      assert a == [a[0]] + a[1..];
    } else {
      assert a + b == b;
    }
  }

  /** A template in which `{{` never occurs is returned unchanged. */
  lemma {:induction false} NoTokenIdentity(s: string, v: Values)
    requires forall i :: 0 <= i < |s| - 1 ==> !(s[i] == '{' && s[i + 1] == '{')
    ensures Evaluate(s, v) == s
    decreases |s|
  {
    if s != [] {
      assert |s| >= 2 ==> !(s[0] == '{' && s[1] == '{');
      NoTokenIdentity(s[1..], v);
    }
  }

  /** A recognised content is replaced whatever the spacing around it; an
      unrecognised one leaves the match untouched, spacing included. */
  lemma SubstituteSpacing(c: string, matched: string, other: string, v: Values)
    ensures Recognised(c, v) ==> Substitute(c, matched, v) == Substitute(c, other, v)
    ensures !Recognised(c, v) ==> Substitute(c, matched, v) == matched
  {
  }

  /** Spacing inside the braces does not change what a recognised token
      becomes. */
  lemma SpacingIrrelevant(w1: string, c: string, w2: string, rest: string, v: Values)
    requires AllWhitespace(w1) && AllWhitespace(w2) && PlainContent(c) && Recognised(c, v)
    ensures Evaluate(TokenText(w1, c, w2) + rest, v) == Evaluate(TokenText("", c, "") + rest, v)
  {
    ExpandToken(w1, c, w2, rest, v);
    ExpandToken("", c, "", rest, v);
    SubstituteSpacing(c, TokenText(w1, c, w2), TokenText("", c, ""), v);
  }

  /** An unknown token is copied verbatim and evaluation goes on after it. */
  lemma UnknownKept(w1: string, c: string, w2: string, rest: string, v: Values)
    requires AllWhitespace(w1) && AllWhitespace(w2) && PlainContent(c) && !Recognised(c, v)
    ensures Evaluate(TokenText(w1, c, w2) + rest, v) == TokenText(w1, c, w2) + Evaluate(rest, v)
  {
    ExpandToken(w1, c, w2, rest, v);
    SubstituteSpacing(c, TokenText(w1, c, w2), "", v);
  }

  /** `{{defines/<key>}}` becomes the stringified value of an existing
      define and is left as it was for a missing one; the value is not
      scanned again. */
  lemma DefineToken(key: string, rest: string, ctx: Context)
    requires PlainContent("defines/" + key)
    ensures key in ctx.defines ==>
      EvaluateTemplate(TokenText("", "defines/" + key, "") + rest, ctx) == Stringify(ctx.defines[key]) + EvaluateTemplate(rest, ctx)
    ensures key !in ctx.defines ==>
      EvaluateTemplate(TokenText("", "defines/" + key, "") + rest, ctx)
        == TokenText("", "defines/" + key, "") + EvaluateTemplate(rest, ctx)
  {
    var c := "defines/" + key;
    ExpandToken("", c, "", rest, ValuesOf(ctx));
    assert StartsWith(c, "defines/") && c[8..] == key;
    assert c[7] == '/';
    NamesShape(c);
  }

  /** `{{defines::count}}` becomes the number of defines. */
  lemma CountToken(w1: string, w2: string, rest: string, ctx: Context)
    requires AllWhitespace(w1) && AllWhitespace(w2)
    ensures EvaluateTemplate(TokenText(w1, "defines::count", w2) + rest, ctx) == NatToString(|ctx.defines|) + EvaluateTemplate(rest, ctx)
  {
    ExpandToken(w1, "defines::count", w2, rest, ValuesOf(ctx));
  }

  /** `{{language::short}}` becomes `py`, `cpp` or `?`. */
  lemma LanguageShortToken(w1: string, w2: string, rest: string, ctx: Context)
    requires AllWhitespace(w1) && AllWhitespace(w2)
    ensures EvaluateTemplate(TokenText(w1, "language::short", w2) + rest, ctx)
         == (if ctx.language == "python" then "py" else if ctx.language == "cpp" then "cpp" else "?")
            + EvaluateTemplate(rest, ctx)
  {
    ExpandToken(w1, "language::short", w2, rest, ValuesOf(ctx));
  }

  /** `{{language}}` becomes the language as it is. */
  lemma LanguageToken(w1: string, w2: string, rest: string, ctx: Context)
    requires AllWhitespace(w1) && AllWhitespace(w2)
    ensures EvaluateTemplate(TokenText(w1, "language", w2) + rest, ctx) == ctx.language + EvaluateTemplate(rest, ctx)
  {
    ExpandToken(w1, "language", w2, rest, ValuesOf(ctx));
  }

  /** `{{minify}}` becomes `true` or `false`. */
  lemma MinifyToken(w1: string, w2: string, rest: string, ctx: Context)
    requires AllWhitespace(w1) && AllWhitespace(w2)
    ensures EvaluateTemplate(TokenText(w1, "minify", w2) + rest, ctx) == (if ctx.minify then "true" else "false") + EvaluateTemplate(rest, ctx)
  {
    ExpandToken(w1, "minify", w2, rest, ValuesOf(ctx));
  }

  /** `{{minify::short}}` becomes `y` or `n`. */
  lemma MinifyShortToken(w1: string, w2: string, rest: string, ctx: Context)
    requires AllWhitespace(w1) && AllWhitespace(w2)
    ensures EvaluateTemplate(TokenText(w1, "minify::short", w2) + rest, ctx) == (if ctx.minify then "y" else "n") + EvaluateTemplate(rest, ctx)
  {
    ExpandToken(w1, "minify::short", w2, rest, ValuesOf(ctx));
  }

  /** `{{computer-name}}` becomes the computer's name. */
  lemma ComputerNameToken(w1: string, w2: string, rest: string, ctx: Context)
    requires AllWhitespace(w1) && AllWhitespace(w2)
    ensures EvaluateTemplate(TokenText(w1, "computer-name", w2) + rest, ctx) == ctx.computerName + EvaluateTemplate(rest, ctx)
  {
    ExpandToken(w1, "computer-name", w2, rest, ValuesOf(ctx));
  }

  /** The template `{{computer-name}}-build`. */
  lemma ComputerNameExample(template: string, ctx: Context)
    requires template == "{{computer-name}}-build"
    ensures EvaluateTemplate(template, ctx) == ctx.computerName + "-build"
  {
    ComputerNameText();
    ComputerNameToken("", "", "-build", ctx);
    BuildSuffix(ValuesOf(ctx));
  }

  lemma ComputerNameText()
    ensures "{{computer-name}}-build" == TokenText("", "computer-name", "") + "-build"
  {
  }

  lemma BuildSuffix(v: Values)
    ensures Evaluate("-build", v) == "-build"
  {
    LiteralPrefix("-build", "", v);
    assert "-build" + "" == "-build";
  }

  /** `{{ a {{ b }}` is one match whose content `a {{ b` is unknown, so the
      text is returned as it was. */
  lemma NestedOpenExample(template: string, ctx: Context)
    requires template == "{{ a {{ b }}"
    ensures EvaluateTemplate(template, ctx) == template
  {
    assert PlainContent("a {{ b");
    NamesShape("a {{ b");
    assert template == TokenText(" ", "a {{ b", " ") + "";
    UnknownKept(" ", "a {{ b", " ", "", ValuesOf(ctx));
  }

  // defines::list

  /** The loop of `defines::list`: appends `key=value, ` for each define in
      the map's iteration order `order`. */
  method DefinesList(defines: map<string, DefineValue>, order: seq<string>) returns (s: string)
    requires Enumerates(order, defines.Keys)
    ensures s == ListText(order, defines)
  {
    s := "";
    for i := 0 to |order|
      invariant s == ListText(order[..i], defines)
    {
      var k := order[i];
      s := s + k + "=" + Stringify(defines[k]) + ", ";
      assert order[..i + 1] == order[..i] + [k];
      ListTextAppend(order[..i], k, defines);
    }
    assert order[..|order|] == order;
  }

  lemma ListTextAppend(order: seq<string>, k: string, defines: map<string, DefineValue>)
    requires k in defines
    ensures ListText(order + [k], defines) == ListText(order, defines) + k + "=" + Stringify(defines[k]) + ", "
  {
    MapAppend(EntryOf(defines), order, [k]);
    assert MapSeq(EntryOf(defines), [k]) == [Entry(k, defines)];
    ConcatAppend(Entries(order, defines), Entry(k, defines));
  }

  /** The list holds one entry per define and two iteration orders give the
      same entries, possibly in another order. */
  lemma ListEntries(o1: seq<string>, o2: seq<string>, defines: map<string, DefineValue>)
    requires Enumerates(o1, defines.Keys) && Enumerates(o2, defines.Keys)
    ensures |Entries(o1, defines)| == |defines|
    ensures multiset(Entries(o1, defines)) == multiset(Entries(o2, defines))
  {
    EnumerationsPermute(o1, o2, defines.Keys);
    MapPermutes(EntryOf(defines), o1, o2);
    EnumerationSize(o1, defines.Keys);
  }

  /** A define's entry is `key=value, `. */
  lemma EntryShape(k: string, defines: map<string, DefineValue>)
    requires k in defines
    ensures Entry(k, defines) == k + "=" + Stringify(defines[k]) + ", "
  {
  }
}
