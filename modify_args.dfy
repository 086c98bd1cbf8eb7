/** The argument rewriter of `src/modify_args.rs`: before the wrapped
    upload tool runs, the slot after `--write`, `--name` or
    `--description` is replaced by the build output, the resolved name or
    the base64 form of the resolved description. `has_write` and
    `entry_point` scan the same arguments. */
module ModifyArgs {
  import opened Wrappers
  import opened Paths
  import Encoding

  /** `ModifyOptions`. */
  datatype ModifyOptions = ModifyOptions(writeOutput: Path, name: string, description: string)

  const WriteFlag: string := "--write"
  const NameFlag: string := "--name"
  const DescriptionFlag: string := "--description"

  /** The message of the error `modify_args` returns when the output path
      has no UTF-8 form. */
  const PathNotUtf8: string := "failed to convert output path to utf8"

  /** The whole text of the `--description` slot: the standard base64
      form of the description's UTF-8 bytes. */
  function DescriptionSlot(description: string): string {
    Encoding.Base64Encode(Encoding.Utf8Encode(description))
  }

  /** The new text of the slot after an argument; `None` when the argument
      is not one of the three flags, or is `--write` and the output path
      has no UTF-8 form. */
  function SlotValue(flag: string, options: ModifyOptions): Option<string> {
    if flag == WriteFlag then ToStr(options.writeOutput)
    else if flag == NameFlag then Some(options.name)
    else if flag == DescriptionFlag then Some(DescriptionSlot(options.description))
    else None
  }

  /** The arguments once the flags at positions below `n` of the original
      arguments `orig` have been acted on. */
  function Rewritten(orig: seq<string>, options: ModifyOptions, n: nat): (r: seq<string>)
    ensures |r| == |orig|
  {
    seq(|orig|, j requires 0 <= j < |orig| =>
      if 1 <= j <= n && SlotValue(orig[j - 1], options).Some? then SlotValue(orig[j - 1], options).value
      else orig[j])
  }

  /** Some position below `n` holds `--write`. */
  predicate WriteBelow(orig: seq<string>, n: int) {
    exists i :: 0 <= i < n && i < |orig| && orig[i] == WriteFlag
  }

  /** How many arguments `take(args.len() - 1)` visits: all but the last.
      On an empty vector the subtraction wraps to `usize::MAX` in a release
      build, and `take` then visits nothing. */
  function Visited(n: nat): (k: nat)
    ensures n > 0 ==> k + 1 == n
    ensures n == 0 ==> k == 0
  {
    if n == 0 then 0 else n - 1
  }

  /** `modify_args`: every argument but the last is judged as a flag by its
      original text, and the slot after it is rewritten in place. When the
      output path has no UTF-8 form the first `--write` stops the pass with
      an error, leaving the slots rewritten so far. */
  method ModifyArgs(args: array<string>, options: ModifyOptions) returns (r: Result<(), string>)
    modifies args
    ensures r.Success? <==> ToStr(options.writeOutput).Some? || !WriteBelow(old(args[..]), Visited(args.Length))
    ensures r.Success? ==> args[..] == Rewritten(old(args[..]), options, Visited(args.Length))
    ensures r.Failure? ==> r.error == PathNotUtf8
    ensures r.Failure? ==>
      (exists w :: 0 <= w < args.Length - 1 && old(args[..])[w] == WriteFlag && !WriteBelow(old(args[..]), w)
                      && args[..] == Rewritten(old(args[..]), options, w))
  {
    var snapshot := args[..];
    var i := 0;
    while i < Visited(args.Length)
      invariant 0 <= i <= Visited(args.Length) && |snapshot| == args.Length
      invariant args[..] == Rewritten(snapshot, options, i)
      invariant ToStr(options.writeOutput).None? ==> !WriteBelow(snapshot, i)
    {
      var flag := snapshot[i];
      RewrittenStep(snapshot, options, i);
      if flag == WriteFlag {
        var text := ToStr(options.writeOutput);
        if text.None? {
          return Failure(PathNotUtf8);
        }
        args[i + 1] := text.value;
      } else if flag == NameFlag {
        args[i + 1] := options.name;
      } else if flag == DescriptionFlag {
        args[i + 1] := DescriptionSlot(options.description);
      }
      i := i + 1;
    }
    return Success(());
  }

  /** Acting on the flag at position `i` rewrites at most the slot after
      it. */
  lemma RewrittenStep(orig: seq<string>, options: ModifyOptions, i: nat)
    requires i + 1 < |orig|
    ensures SlotValue(orig[i], options).None? ==> Rewritten(orig, options, i + 1) == Rewritten(orig, options, i)
    ensures SlotValue(orig[i], options).Some? ==>
      Rewritten(orig, options, i + 1) == Rewritten(orig, options, i)[i + 1 := SlotValue(orig[i], options).value]
  {
  }

  /** Only slots that follow one of the three flags in the original
      arguments can change; the first argument never does, and neither does
      the length. */
  lemma RewrittenFrame(orig: seq<string>, options: ModifyOptions, n: nat)
    requires |orig| > 0
    ensures |Rewritten(orig, options, n)| == |orig| && Rewritten(orig, options, n)[0] == orig[0]
    ensures forall j :: 0 <= j < |orig| && Rewritten(orig, options, n)[j] != orig[j] ==>
      1 <= j <= n && orig[j - 1] in {WriteFlag, NameFlag, DescriptionFlag}
  {
  }

  /** What a flag's slot becomes: the output path as text, the name, or the
      base64 text of the description, which decodes back to it. */
  lemma SlotValues(options: ModifyOptions)
    ensures SlotValue(WriteFlag, options).Some? ==> Os(SlotValue(WriteFlag, options).value) == PathText(options.writeOutput)
    ensures SlotValue(NameFlag, options) == Some(options.name)
    ensures SlotValue(DescriptionFlag, options).Some?
    ensures Encoding.Base64Decode(SlotValue(DescriptionFlag, options).value)
         == Some(Encoding.Utf8Encode(options.description))
    ensures Encoding.Utf8Decode(Encoding.Utf8Encode(options.description)) == Some(options.description)
  {
    Encoding.Base64RoundTrip(Encoding.Utf8Encode(options.description));
    Encoding.Utf8RoundTrip(options.description);
  }

  /** Flags are read from the original arguments: in
      `--write --name x` both the second and the third argument are
      rewritten, the second although it was itself a flag. */
  lemma SnapshotExample(options: ModifyOptions)
    requires ToStr(options.writeOutput).Some?
    ensures Rewritten([WriteFlag, NameFlag, "x"], options, 2)
         == [WriteFlag, ToStr(options.writeOutput).value, options.name]
  {
  }

  /** `has_write`: some argument, the last one included, is `--write`. */
  function HasWrite(args: seq<string>): (b: bool)
    ensures b <==> exists i :: 0 <= i < |args| && args[i] == WriteFlag
  {
    if |args| == 0 then false
    else if args[0] == WriteFlag then true
    else
      var b := HasWrite(args[1..]);
      assert forall i :: 1 <= i < |args| ==> args[i] == args[1..][i - 1];
      b
  }

  /** The first position at or after `i`, below the last, that holds
      `--write`. */
  function FirstWrite(args: seq<string>, i: nat): (r: Option<nat>)
    requires i <= |args|
    ensures r.Some? ==> i <= r.value < |args| - 1 && args[r.value] == WriteFlag
                        && forall j :: i <= j < r.value ==> args[j] != WriteFlag
    ensures r.None? ==> forall j :: i <= j < |args| - 1 ==> args[j] != WriteFlag
    decreases |args| - i
  {
    if i >= |args| - 1 then None
    else if args[i] == WriteFlag then Some(i)
    else FirstWrite(args, i + 1)
  }

  /** `entry_point`: the argument after the first `--write` that is not the
      last argument. The path is kept as the argument's text. */
  function EntryPoint(args: seq<string>): (r: Option<string>)
    ensures r.Some? <==> WriteBelow(args, |args| - 1)
    ensures r.Some? ==> exists i :: 0 <= i < |args| - 1 && args[i] == WriteFlag && !WriteBelow(args, i)
                                   && r.value == args[i + 1]
  {
    match FirstWrite(args, 0)
    case None => None
    case Some(i) => Some(args[i + 1])
  }

  /** An entry point implies `has_write`; `has_write` without an entry point
      means `--write` is only the last argument. */
  lemma EntryPointAndHasWrite(args: seq<string>)
    ensures EntryPoint(args).Some? ==> HasWrite(args)
    ensures HasWrite(args) && EntryPoint(args).None? ==>
      args[|args| - 1] == WriteFlag && forall i :: 0 <= i < |args| - 1 ==> args[i] != WriteFlag
  {
  }

  /** `a --write` has `has_write` but no entry point. */
  lemma TrailingWriteExample()
    ensures HasWrite(["a", WriteFlag]) && EntryPoint(["a", WriteFlag]).None?
  {
    assert ["a", WriteFlag][1] == WriteFlag;
  }
}
