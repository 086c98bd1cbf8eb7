/** Filesystem paths as Rust's `std::path` sees them on Windows: a
    sequence of components. A component's text is an OS string, which on
    Windows may hold an unpaired UTF-16 surrogate and then has no `&str`
    form; that is the only way `Path::to_str` can fail. */
module Paths {
  import opened Wrappers

  /** One unit of an OS string: a Unicode scalar value or an unpaired
      surrogate. */
  datatype OsUnit = Scalar(c: char) | LoneSurrogate(code: bv16)

  type OsStr = seq<OsUnit>

  /** The OS string of a Rust `&str`. */
  function Os(s: string): (o: OsStr)
    ensures |o| == |s| && forall i :: 0 <= i < |s| ==> o[i] == Scalar(s[i])
  {
    seq(|s|, i requires 0 <= i < |s| => Scalar(s[i]))
  }

  /** `OsStr::to_str`: the text when every unit is a scalar value. */
  function OsToStr(o: OsStr): (r: Option<string>)
    ensures r.Some? <==> forall i :: 0 <= i < |o| ==> o[i].Scalar?
    ensures r.Some? ==> Os(r.value) == o
  {
    if forall i :: 0 <= i < |o| ==> o[i].Scalar? then
      var t := seq(|o|, i requires 0 <= i < |o| => if o[i].Scalar? then o[i].c else ' ');
      assert forall i :: 0 <= i < |o| ==> Os(t)[i] == o[i];
      Some(t)
    else None
  }

  lemma OsToStrOfText(s: string)
    ensures OsToStr(Os(s)) == Some(s)
  {
    var r := OsToStr(Os(s));
    var t := r.value;
    assert Os(t) == Os(s);
    assert forall i :: 0 <= i < |s| ==> Os(t)[i] == Scalar(t[i]) && Os(s)[i] == Scalar(s[i]);
    assert t == s;
  }

  datatype Component = Prefix(raw: OsStr) | RootDir | CurDir | ParentDir | Normal(name: OsStr)

  type Path = seq<Component>

  /** The path of one relative name. */
  function Name(s: string): Path {
    [Normal(Os(s))]
  }

  predicate HasPrefix(p: Path) { |p| > 0 && p[0].Prefix? }

  predicate HasRoot(p: Path) {
    (|p| > 0 && p[0].RootDir?) || (|p| > 1 && p[0].Prefix? && p[1].RootDir?)
  }

  predicate IsAbsolute(p: Path) { HasPrefix(p) && HasRoot(p) }

  /** `PathBuf::push` / `Path::join` on Windows: a relative path is
      appended; a path with a prefix replaces the base; a path with a root
      but no prefix keeps only the base's prefix. */
  function Join(base: Path, p: Path): (r: Path)
    ensures !HasPrefix(p) && !HasRoot(p) ==> r == base + p
    ensures HasPrefix(p) ==> r == p
  {
    if HasPrefix(p) then p
    else if HasRoot(p) then (if HasPrefix(base) then [base[0]] + p else p)
    else base + p
  }

  /** `Path::parent`: the path without its last component, unless that
      component is a prefix or the root, or the path is empty. */
  function Parent(p: Path): (r: Option<Path>)
    ensures r.Some? <==> |p| > 0 && !p[|p| - 1].Prefix? && !p[|p| - 1].RootDir?
    ensures r.Some? ==> r.value == p[..|p| - 1]
  {
    if |p| == 0 || p[|p| - 1].Prefix? || p[|p| - 1].RootDir? then None else Some(p[..|p| - 1])
  }

  /** `PathBuf::pop`: truncates to the parent, and leaves the path as it
      is when there is none. */
  function Pop(p: Path): (r: Path)
    ensures Parent(p).Some? ==> r == Parent(p).value && |r| == |p| - 1
    ensures Parent(p).None? ==> r == p
  {
    match Parent(p)
    case Some(q) => q
    case None => p
  }

  /** Popping undoes pushing one name. */
  lemma PopJoinName(p: Path, s: string)
    ensures Pop(Join(p, Name(s))) == p
  {
    assert (p + Name(s))[..|p|] == p;
  }

  /** Text of one component. */
  function ComponentText(c: Component): OsStr {
    match c
    case Prefix(raw) => raw
    case RootDir => Os("\\")
    case CurDir => Os(".")
    case ParentDir => Os("..")
    case Normal(name) => name
  }

  /** The OS string a path holds: components separated by `\`, with no
      separator right after a prefix or the root. */
  function PathText(p: Path): OsStr {
    if |p| == 0 then []
    else if |p| == 1 || p[0].Prefix? || p[0].RootDir? then ComponentText(p[0]) + PathText(p[1..])
    else ComponentText(p[0]) + Os("\\") + PathText(p[1..])
  }

  /** `Path::to_str`. */
  function ToStr(p: Path): (r: Option<string>)
    ensures r.Some? ==> Os(r.value) == PathText(p)
    ensures r.None? ==> exists i :: 0 <= i < |PathText(p)| && PathText(p)[i].LoneSurrogate?
  {
    OsToStr(PathText(p))
  }
}
