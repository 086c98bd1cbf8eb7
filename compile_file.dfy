/** The compile invoker of `src/compile_file.rs`: the argument vector given
    to the Python transformer, the library directory it runs in, and how
    its exit status and JSON output become the result. */
module CompileFile {
  import opened Wrappers
  import opened Paths
  import opened Sequences
  import opened ConfigModel

  /** `CompileFileOptions`. */
  datatype CompileFileOptions = CompileFileOptions(
    input: Path, output: Option<Path>, minify: bool,
    defines: map<string, DefineValue>, appDataLocation: Path)

  const LeadTokens: seq<string> := ["-m", "python-compiler", "--input"]
  const FixedTokens: seq<string> :=
    ["--remove-imports", "vex", "--prelude", "from vex import *", "--json",
     "--export-dictionary-mode", "class_instance"]
  const DefineFlag: string := "--define-constant"
  const OutputFlag: string := "--output"

  /** Each token as an `OsString`. */
  function OsAll(ss: seq<string>): (r: seq<OsStr>)
    ensures |r| == |ss|
  {
    MapSeq(Os, ss)
  }

  /** The three arguments one define contributes. */
  function Triple(k: string, defines: map<string, DefineValue>): seq<OsStr>
    requires k in defines
  {
    [Os(DefineFlag), Os(k), Os(Stringify(defines[k]))]
  }

  function TripleOf(defines: map<string, DefineValue>): string -> seq<OsStr> {
    k => if k in defines then Triple(k, defines) else []
  }

  /** The define triples in the given iteration order. */
  function Triples(order: seq<string>, defines: map<string, DefineValue>): (r: seq<seq<OsStr>>)
    ensures |r| == |order|
  {
    MapSeq(TripleOf(defines), order)
  }

  function OutputArgs(output: Option<Path>): seq<OsStr> {
    if output.Some? then [Os(OutputFlag), PathText(output.value)] else []
  }

  /** The three leading tokens, the input path and the seven fixed tokens. */
  function Head(input: Path): (r: seq<OsStr>)
    ensures |r| == 11
  {
    OsAll(LeadTokens) + [PathText(input)] + OsAll(FixedTokens)
  }

  /** The define block: one triple per key, in iteration order. */
  function DefineArgs(order: seq<string>, defines: map<string, DefineValue>): seq<OsStr> {
    Concat(Triples(order, defines))
  }

  /** The argument vector for a canonical input path and an iteration order
      of the defines. */
  function CompileArgs(input: Path, output: Option<Path>, defines: map<string, DefineValue>,
                       order: seq<string>): seq<OsStr>
  {
    Head(input) + DefineArgs(order, defines) + OutputArgs(output)
  }

  /** The assembly of `args` in `compile_file`, from the canonical input
      path and the order in which the defines map hands out its keys. */
  method BuildArgs(canonicalInput: Path, options: CompileFileOptions, order: seq<string>)
    returns (args: seq<OsStr>)
    requires Enumerates(order, options.defines.Keys)
    ensures args == CompileArgs(canonicalInput, options.output, options.defines, order)
  {
    args := HeadArgs(canonicalInput);
    args := PushDefines(args, options.defines, order);
    ghost var body := args;
    if options.output.Some? {
      args := args + [Os(OutputFlag)];
      args := args + [PathText(options.output.value)];
    }
    assert args == body + OutputArgs(options.output);
  }

  /** The loop over the defines: one `--define-constant` triple per key,
      in iteration order. */
  method PushDefines(start: seq<OsStr>, defines: map<string, DefineValue>, order: seq<string>)
    returns (args: seq<OsStr>)
    requires Enumerates(order, defines.Keys)
    ensures args == start + DefineArgs(order, defines)
  {
    args := start;
    for i := 0 to |order|
      invariant args == start + DefineArgs(order[..i], defines)
    {
      var k := order[i];
      var value := Stringify(defines[k]);
      var triple := [Os(DefineFlag), Os(k), Os(value)];
      DefineArgsStep(order, i, defines);
      args := args + triple;
    }
    assert order[..|order|] == order;
  }

  /** The first eleven arguments, pushed before the defines. */
  method HeadArgs(canonicalInput: Path) returns (args: seq<OsStr>)
    ensures args == Head(canonicalInput)
  {
    args := OsAll(LeadTokens);
    args := args + [PathText(canonicalInput)];
    args := args + OsAll(FixedTokens);
  }

  /** One more key of the iteration order appends its triple. */
  lemma DefineArgsStep(order: seq<string>, i: nat, defines: map<string, DefineValue>)
    requires i < |order| && order[i] in defines
    ensures DefineArgs(order[..i + 1], defines)
         == DefineArgs(order[..i], defines) + [Os(DefineFlag), Os(order[i]), Os(Stringify(defines[order[i]]))]
  {
    TriplesAppend(order[..i], order[i], defines);
    assert order[..i + 1] == order[..i] + [order[i]];
  }

  lemma TriplesAppend(order: seq<string>, k: string, defines: map<string, DefineValue>)
    requires k in defines
    ensures DefineArgs(order + [k], defines) == DefineArgs(order, defines) + [Os(DefineFlag), Os(k), Os(Stringify(defines[k]))]
  {
    MapAppend(TripleOf(defines), order, [k]);
    assert MapSeq(TripleOf(defines), [k]) == [Triple(k, defines)];
    ConcatAppend(Triples(order, defines), Triple(k, defines));
  }

  /** In a concatenation of parts of one width, part `k` sits at `w * k`. */
  lemma ConcatUniformAt<T>(parts: seq<seq<T>>, w: nat, k: nat)
    requires forall i :: 0 <= i < |parts| ==> |parts[i]| == w
    requires k < |parts|
    ensures |Concat(parts)| == w * |parts|
    ensures w * k + w <= |Concat(parts)| && Concat(parts)[w * k..w * k + w] == parts[k]
  {
    ConcatLength(parts, w);
    ConcatSplit(parts, k);
    ConcatLength(parts[..k], w);
    assert parts[k..][0] == parts[k] && parts[k..][1..] == parts[k + 1..];
    assert Concat(parts[k..]) == parts[k] + Concat(parts[k + 1..]);
  }

  /** The define block holds one contiguous triple per key, in order. */
  lemma DefineLayout(order: seq<string>, defines: map<string, DefineValue>)
    requires forall i :: 0 <= i < |order| ==> order[i] in defines
    ensures |DefineArgs(order, defines)| == 3 * |order|
    ensures forall k :: 0 <= k < |order| ==>
      DefineArgs(order, defines)[3 * k..3 * k + 3] == [Os(DefineFlag), Os(order[k]), Os(Stringify(defines[order[k]]))]
  {
    TriplesWidth(order, defines);
    ConcatLength(Triples(order, defines), 3);
    forall k | 0 <= k < |order|
      ensures DefineArgs(order, defines)[3 * k..3 * k + 3] == [Os(DefineFlag), Os(order[k]), Os(Stringify(defines[order[k]]))]
    {
      DefineAt(order, defines, k);
    }
  }

  lemma TriplesWidth(order: seq<string>, defines: map<string, DefineValue>)
    requires forall i :: 0 <= i < |order| ==> order[i] in defines
    ensures forall i :: 0 <= i < |order| ==> Triples(order, defines)[i] == Triple(order[i], defines)
    ensures forall i :: 0 <= i < |order| ==> |Triples(order, defines)[i]| == 3
  {
    forall i | 0 <= i < |order| ensures Triples(order, defines)[i] == Triple(order[i], defines) {
      MapAt(TripleOf(defines), order, i);
    }
  }

  /** The triple of key `k` in the define block. */
  lemma DefineAt(order: seq<string>, defines: map<string, DefineValue>, k: nat)
    requires forall i :: 0 <= i < |order| ==> order[i] in defines
    requires k < |order|
    ensures |DefineArgs(order, defines)| == 3 * |order|
    ensures DefineArgs(order, defines)[3 * k..3 * k + 3] == [Os(DefineFlag), Os(order[k]), Os(Stringify(defines[order[k]]))]
  {
    TriplesWidth(order, defines);
    ConcatUniformAt(Triples(order, defines), 3, k);
  }

  /** The head: `-m python-compiler --input`, the input path, then the
      seven fixed tokens. */
  lemma HeadLayout(input: Path)
    ensures Head(input)[..3] == [Os("-m"), Os("python-compiler"), Os("--input")]
    ensures Head(input)[3] == PathText(input)
    ensures Head(input)[4..] == OsAll(FixedTokens)
  {
  }

  /** The define triples sit right after the head. */
  lemma ArgsDefines(input: Path, output: Option<Path>, defines: map<string, DefineValue>, order: seq<string>)
    requires forall i :: 0 <= i < |order| ==> order[i] in defines
    ensures |CompileArgs(input, output, defines, order)| >= 11 + 3 * |order|
    ensures forall k :: 0 <= k < |order| ==>
      CompileArgs(input, output, defines, order)[11 + 3 * k..14 + 3 * k]
        == [Os(DefineFlag), Os(order[k]), Os(Stringify(defines[order[k]]))]
  {
    DefineLayout(order, defines);
    forall k | 0 <= k < |order|
      ensures CompileArgs(input, output, defines, order)[11 + 3 * k..14 + 3 * k]
        == [Os(DefineFlag), Os(order[k]), Os(Stringify(defines[order[k]]))]
    {
      ArgsDefineAt(input, output, defines, order, k);
    }
  }

  lemma ArgsDefineAt(input: Path, output: Option<Path>, defines: map<string, DefineValue>, order: seq<string>, k: nat)
    requires forall i :: 0 <= i < |order| ==> order[i] in defines
    requires k < |order|
    ensures |CompileArgs(input, output, defines, order)| >= 14 + 3 * k
    ensures CompileArgs(input, output, defines, order)[11 + 3 * k..14 + 3 * k]
        == [Os(DefineFlag), Os(order[k]), Os(Stringify(defines[order[k]]))]
  {
    DefineAt(order, defines, k);
    TripleAfterHead(Head(input), DefineArgs(order, defines), OutputArgs(output), k,
                    [Os(DefineFlag), Os(order[k]), Os(Stringify(defines[order[k]]))]);
  }

  /** After an eleven-argument head, triple `k` of a block sits at
      `11 + 3 * k`. */
  lemma TripleAfterHead(head: seq<OsStr>, block: seq<OsStr>, tail: seq<OsStr>, k: nat, triple: seq<OsStr>)
    requires |head| == 11 && 3 * k + 3 <= |block| && block[3 * k..3 * k + 3] == triple
    ensures |head + block + tail| >= 14 + 3 * k
    ensures (head + block + tail)[11 + 3 * k..14 + 3 * k] == triple
  {
    SliceMiddle(head, block, tail, 3 * k, 3 * k + 3);
  }

  /** The layout of the argument vector: the head, one contiguous triple
      per define in iteration order, and `--output <path>` last exactly when
      an output is given. */
  lemma ArgsLayout(input: Path, output: Option<Path>, defines: map<string, DefineValue>, order: seq<string>)
    requires Enumerates(order, defines.Keys)
    ensures |order| == |defines|
    ensures |CompileArgs(input, output, defines, order)| == 11 + 3 * |defines| + (if output.Some? then 2 else 0)
    ensures CompileArgs(input, output, defines, order)[..11] == Head(input)
    ensures forall k :: 0 <= k < |order| ==>
      CompileArgs(input, output, defines, order)[11 + 3 * k..14 + 3 * k]
        == [Os(DefineFlag), Os(order[k]), Os(Stringify(defines[order[k]]))]
    ensures output.Some? ==> CompileArgs(input, output, defines, order)[11 + 3 * |defines|..]
                             == [Os(OutputFlag), PathText(output.value)]
  {
    EnumerationSize(order, defines.Keys);
    ArgsDefines(input, output, defines, order);
    ArgsTail(input, output, defines, order);
  }

  /** The part of the vector after the define block, and the head before
      it. */
  lemma ArgsTail(input: Path, output: Option<Path>, defines: map<string, DefineValue>, order: seq<string>)
    requires Enumerates(order, defines.Keys)
    ensures |CompileArgs(input, output, defines, order)| == 11 + 3 * |defines| + |OutputArgs(output)|
    ensures CompileArgs(input, output, defines, order)[..11] == Head(input)
    ensures CompileArgs(input, output, defines, order)[11 + 3 * |defines|..] == OutputArgs(output)
  {
    EnumerationSize(order, defines.Keys);
    DefineLayout(order, defines);
    SliceParts(Head(input), DefineArgs(order, defines), OutputArgs(output));
  }

  /** Two iteration orders of the same defines give vectors of one length
      that agree outside the define block, whose triples are the same up to
      order. */
  lemma ArgsPermute(input: Path, output: Option<Path>, defines: map<string, DefineValue>,
                    o1: seq<string>, o2: seq<string>)
    requires Enumerates(o1, defines.Keys) && Enumerates(o2, defines.Keys)
    ensures |CompileArgs(input, output, defines, o1)| == |CompileArgs(input, output, defines, o2)|
      >= 11 + 3 * |defines|
    ensures CompileArgs(input, output, defines, o1)[..11] == CompileArgs(input, output, defines, o2)[..11]
    ensures CompileArgs(input, output, defines, o1)[11 + 3 * |defines|..]
         == CompileArgs(input, output, defines, o2)[11 + 3 * |defines|..]
    ensures multiset(Triples(o1, defines)) == multiset(Triples(o2, defines))
  {
    ArgsLayout(input, output, defines, o1);
    ArgsLayout(input, output, defines, o2);
    ArgsTail(input, output, defines, o1);
    ArgsTail(input, output, defines, o2);
    EnumerationsPermute(o1, o2, defines.Keys);
    MapPermutes(TripleOf(defines), o1, o2);
  }

  /** The library directory: the executable path with its last two
      components popped and `lib` pushed. */
  function LibDir(exe: Path): Path {
    Join(Pop(Pop(exe)), Name("lib"))
  }

  /** For an executable `<dir>/bin/<exe>` the library directory is
      `<dir>/lib`, a sibling of the executable's directory. */
  lemma LibDirSibling(exe: Path)
    requires |exe| >= 2 && exe[|exe| - 1].Normal? && exe[|exe| - 2].Normal?
    ensures LibDir(exe) == exe[..|exe| - 2] + [Normal(Os("lib"))]
    ensures Pop(LibDir(exe)) == exe[..|exe| - 2]
  {
    assert Pop(exe) == exe[..|exe| - 1];
    assert exe[..|exe| - 1][..|exe| - 2] == exe[..|exe| - 2];
    PopJoinName(Pop(Pop(exe)), "lib");
  }

  /** A JSON value as `serde_json::Value` holds it; numbers keep their text. */
  datatype Json =
    | JNull
    | JBool(b: bool)
    | JNumber(text: string)
    | JString(s: string)
    | JArray(items: seq<Json>)
    | JObject(fields: map<string, Json>)

  /** `Value::get` with a string key: a field of an object, nothing else. */
  function Get(v: Json, key: string): (r: Option<Json>)
    ensures r.Some? <==> v.JObject? && key in v.fields
  {
    if v.JObject? && key in v.fields then Some(v.fields[key]) else None
  }

  /** A string field of an object. */
  function StringField(v: Json, key: string): Option<string> {
    match Get(v, key)
    case Some(JString(s)) => Some(s)
    case _ => None
  }

  /** An error of `compile_file` after the child has exited: a read or JSON
      parse error of a stream, passed on, or a transform failure. */
  datatype CompileError = StreamError(cause: string) | TransformFailed(message: string)

  const ReadOutputFailed: string := "transform failed: failed to read output"
  const ReadErrorFailed: string := "transform failed: failed to read error"

  function NamedFailure(name: string, msg: string): string {
    "transform failed (" + name + "): " + msg
  }

  /** The outcome of `compile_file` from the exit status, whether an output
      file was requested, and the child's standard output and standard error
      as parsed JSON, or the error that reading or parsing them gave. */
  function Classify(success: bool, output: Option<Path>, stdout: Result<Json, string>,
                    stderr: Result<Json, string>): (r: Result<Option<string>, CompileError>)
    ensures success && output.Some? ==> r == Success(None)
    ensures success && output.None? ==>
      r == (if stdout.Failure? then Failure(StreamError(stdout.error))
            else if StringField(stdout.value, "output").Some? then Success(StringField(stdout.value, "output"))
            else Failure(TransformFailed(ReadOutputFailed)))
    ensures !success ==> r.Failure?
  {
    if success then
      if output.None? then
        match stdout
        case Failure(e) => Failure(StreamError(e))
        case Success(v) =>
          match StringField(v, "output")
          case Some(s) => Success(Some(s))
          case None => Failure(TransformFailed(ReadOutputFailed))
      else Success(None)
    else
      match stderr
      case Failure(e) => Failure(StreamError(e))
      case Success(v) =>
        match (StringField(v, "name"), StringField(v, "msg"))
        case (Some(name), Some(msg)) => Failure(TransformFailed(NamedFailure(name, msg)))
        case _ => Failure(TransformFailed(ReadErrorFailed))
  }

  /** With an output file the streams are never looked at; on a failed
      exit standard output is never looked at. */
  lemma ClassifyIgnoresStreams(output: Option<Path>, out1: Result<Json, string>, out2: Result<Json, string>,
                               err1: Result<Json, string>, err2: Result<Json, string>)
    ensures output.Some? ==> Classify(true, output, out1, err1) == Classify(true, output, out2, err2)
    ensures Classify(false, output, out1, err1) == Classify(false, None, out2, err1)
  {
  }

  /** A failed exit: the error names the transformer's error when standard
      error carries string fields `name` and `msg`, is the generic message
      otherwise, and passes on a read or parse error. */
  lemma FailedExit(output: Option<Path>, stdout: Result<Json, string>, stderr: Result<Json, string>)
    ensures var r := Classify(false, output, stdout, stderr);
      && (stderr.Failure? ==> r == Failure(StreamError(stderr.error)))
      && (stderr.Success? && StringField(stderr.value, "name").Some? && StringField(stderr.value, "msg").Some?
          ==> r == Failure(TransformFailed(NamedFailure(StringField(stderr.value, "name").value,
                                                       StringField(stderr.value, "msg").value))))
      && (stderr.Success? && (StringField(stderr.value, "name").None? || StringField(stderr.value, "msg").None?)
          ==> r == Failure(TransformFailed(ReadErrorFailed)))
  {
  }

  /** Every transform failure message starts with `transform failed`. */
  lemma TransformMessages(success: bool, output: Option<Path>, stdout: Result<Json, string>,
                          stderr: Result<Json, string>)
    ensures var r := Classify(success, output, stdout, stderr);
      r.Failure? && r.error.TransformFailed? ==> r.error.message[..16] == "transform failed"
  {
  }

  /** An inline result is exactly the `output` string of standard output. */
  lemma InlineOutput(stdout: Json, text: string)
    ensures Classify(true, None, Success(stdout), Failure("")) == Success(Some(text))
        <==> stdout.JObject? && "output" in stdout.fields && stdout.fields["output"] == JString(text)
  {
  }
}
