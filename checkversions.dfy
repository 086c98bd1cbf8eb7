/** The tool-version gate of `src/checkversions.rs`: read a tool's
    `--version` output, extract the version text, and check it against a
    semver requirement; Python is checked before git. Spawning the tool
    and semver parsing and matching are inputs. */
module CheckVersions {
  import opened Wrappers
  import opened Text

  /** `VersionError`. A semver version or requirement is kept as the text
      it displays as; an I/O error as its message. */
  datatype VersionError =
    | NotFound(prog: string)
    | ParseFailure
    | IoErr(message: string)
    | BadVersion(prog: string, version: string, requirement: string)

  /** `Display` for `VersionError`. */
  function Display(e: VersionError): string {
    match e
    case NotFound(prog) => "failed to find " + prog + ". check that it's installed and on your PATH."
    case ParseFailure => "failed to parse version"
    case IoErr(message) => message
    case BadVersion(prog, version, requirement) =>
      prog + " " + version + " doesn't satisfy required version " + requirement
  }

  /** At most the first three pieces. */
  function TakeThree(pieces: seq<string>): (r: seq<string>)
    ensures r == pieces[..if |pieces| < 3 then |pieces| else 3]
  {
    if |pieces| <= 3 then pieces else pieces[..3]
  }

  /** The string step of `version`: strip the expected prefix, trim, keep
      at most three `.`-separated pieces and join them again. `None` when
      the output does not start with the prefix. */
  function ExtractVersion(stdout: string, prefix: string): (r: Option<string>)
    ensures r.Some? <==> StartsWith(stdout, prefix)
  {
    match StripPrefix(stdout, prefix)
    case None => None
    case Some(rest) => Some(Join(TakeThree(Split(Trim(rest), '.')), '.'))
  }

  /** The extracted version never has more than two dots. */
  lemma AtMostTwoDots(stdout: string, prefix: string)
    requires StartsWith(stdout, prefix)
    ensures Count(ExtractVersion(stdout, prefix).value, '.') <= 2
  {
    var t := Trim(StripPrefix(stdout, prefix).value);
    var pieces := Split(t, '.');
    SplitPiecesFree(t, '.');
    CountJoin(TakeThree(pieces), '.');
  }

  /** When the trimmed remainder has at most three pieces the version is
      that remainder itself. */
  lemma ShortVersionKept(stdout: string, prefix: string)
    requires StartsWith(stdout, prefix)
    requires Count(Trim(StripPrefix(stdout, prefix).value), '.') <= 2
    ensures ExtractVersion(stdout, prefix) == Some(Trim(StripPrefix(stdout, prefix).value))
  {
    var t := Trim(StripPrefix(stdout, prefix).value);
    SplitLength(t, '.');
    JoinSplit(t, '.');
  }

  /** Joining the first `k` pieces gives a prefix of joining them all. */
  lemma {:induction false} JoinPrefix(pieces: seq<string>, sep: char, k: nat)
    requires 1 <= k <= |pieces|
    ensures Join(pieces[..k], sep) <= Join(pieces, sep)
    decreases k
  {
    if k > 1 {
      JoinPrefix(pieces[1..], sep, k - 1);
      assert pieces[..k][1..] == pieces[1..][..k - 1];
    } else if |pieces| > 1 {
      assert pieces[..1] == [pieces[0]];
    }
  }

  /** The version is a prefix of the trimmed remainder. */
  lemma VersionIsPrefix(stdout: string, prefix: string)
    requires StartsWith(stdout, prefix)
    ensures ExtractVersion(stdout, prefix).value <= Trim(StripPrefix(stdout, prefix).value)
  {
    var t := Trim(StripPrefix(stdout, prefix).value);
    var pieces := Split(t, '.');
    JoinSplit(t, '.');
    if |pieces| > 3 {
      JoinPrefix(pieces, '.', 3);
    }
  }

  /** The version is exactly the trimmed remainder up to, and without, its
      third dot: a prefix of it holding its first two dots (or all of them
      when it has fewer), after which the remainder ends or a dot follows. */
  lemma VersionBeforeThirdDot(stdout: string, prefix: string)
    requires StartsWith(stdout, prefix)
    ensures var t := Trim(StripPrefix(stdout, prefix).value);
      var v := ExtractVersion(stdout, prefix).value;
      var c := Count(t, '.');
      v <= t && Count(v, '.') == (if c < 2 then c else 2) && (|v| == |t| || t[|v|] == '.')
  {
    var t := Trim(StripPrefix(stdout, prefix).value);
    var pieces := Split(t, '.');
    SplitLength(t, '.');
    JoinSplit(t, '.');
    if |pieces| > 3 {
      SplitPiecesFree(t, '.');
      CountJoin(pieces[..3], '.');
      JoinAt(pieces, '.', 3);
    }
  }

  /** `git version 2.41.0.windows.1` with a trailing newline gives
      `2.41.0`. */
  lemma GitExample(stdout: string)
    requires stdout == "git version 2.41.0.windows.1\n"
    ensures ExtractVersion(stdout, "git version ") == Some("2.41.0")
  {
    var rest := "2.41.0.windows.1\n";
    assert StripPrefix(stdout, "git version ") == Some(rest);
    var t := "2.41.0.windows.1";
    TrimExample(rest, t);
    SplitExample(t);
  }

  lemma TrimExample(rest: string, t: string)
    requires rest == "2.41.0.windows.1\n" && t == "2.41.0.windows.1"
    ensures Trim(rest) == t
  {
    assert SkipLeading(rest, 0) == 0;
    assert SkipTrailing(rest, 0, |rest| - 1) == |rest| - 1;
    assert SkipTrailing(rest, 0, |rest|) == |rest| - 1;
    assert rest[0..|rest| - 1] == t;
  }

  lemma SplitExample(t: string)
    requires t == "2.41.0.windows.1"
    ensures Join(TakeThree(Split(t, '.')), '.') == "2.41.0"
  {
    assert t == "2" + ['.'] + ("41" + ['.'] + ("0" + ['.'] + ("windows" + ['.'] + "1")));
    FivePieces("2", "41", "0", "windows", "1");
    assert TakeThree(["2", "41", "0", "windows", "1"]) == ["2", "41", "0"];
    JoinExample(["2", "41", "0"]);
  }

  lemma JoinExample(three: seq<string>)
    requires three == ["2", "41", "0"]
    ensures Join(three, '.') == "2.41.0"
  {
    var two, one := three[1..], three[1..][1..];
    assert two == ["41", "0"] && one == ["0"];
    assert Join(one, '.') == "0";
    assert Join(two, '.') == "41" + ['.'] + "0";
    assert Join(three, '.') == "2" + ['.'] + ("41" + ['.'] + "0");
  }

  lemma FivePieces(a: string, b: string, c: string, d: string, e: string)
    requires '.' !in a && '.' !in b && '.' !in c && '.' !in d && '.' !in e
    ensures Split(a + ['.'] + (b + ['.'] + (c + ['.'] + (d + ['.'] + e))), '.') == [a, b, c, d, e]
  {
    SplitNoSep(e, '.');
    SplitAfterPiece(d, e, '.');
    SplitAfterPiece(c, d + ['.'] + e, '.');
    SplitAfterPiece(b, c + ['.'] + (d + ['.'] + e), '.');
    SplitAfterPiece(a, b + ['.'] + (c + ['.'] + (d + ['.'] + e)), '.');
  }

  /** What spawning the tool gave: the wait and read outcomes of a running
      child, or the spawn error and whether its kind is `NotFound`. */
  datatype Spawn =
    | Spawned(waitError: Option<string>, stdout: Result<string, string>)
    | SpawnFailed(notFound: bool, message: string)

  /** `version`. */
  function Version(prog: string, prefix: string, run: Spawn): (r: Result<string, VersionError>)
    ensures run.SpawnFailed? ==> r == Failure(if run.notFound then NotFound(prog) else IoErr(run.message))
  {
    match run
    case SpawnFailed(notFound, message) => if notFound then Failure(NotFound(prog)) else Failure(IoErr(message))
    case Spawned(waitError, stdout) =>
      if waitError.Some? then Failure(IoErr(waitError.value))
      else if stdout.Failure? then Failure(IoErr(stdout.error))
      else
        match ExtractVersion(stdout.value, prefix)
        case None => Failure(ParseFailure)
        case Some(v) => Success(v)
  }

  /** Semver parsing and matching, as inputs: `parse` gives the displayed
      text of a parsed version, `matches` says whether a requirement admits
      a version. */
  datatype Semver = Semver(parse: string -> Option<string>, matches: (string, string) -> bool)

  /** `check_version`. */
  function CheckVersion(prog: string, prefix: string, req: string, run: Spawn, semver: Semver)
    : (r: Result<(), VersionError>)
  {
    match Version(prog, prefix, run)
    case Failure(e) => Failure(e)
    case Success(text) =>
      match semver.parse(text)
      case None => Failure(ParseFailure)
      case Some(version) =>
        if semver.matches(req, version) then Success(())
        else Failure(BadVersion(prog, version, req))
  }

  /** `check_versions`: Python, then git. */
  function CheckVersionsAll(python: Spawn, git: Spawn, semver: Semver): (r: Result<(), VersionError>)
    ensures CheckVersion("python", "Python ", "^3.10", python, semver).Failure? ==>
      r == CheckVersion("python", "Python ", "^3.10", python, semver)
    ensures CheckVersion("python", "Python ", "^3.10", python, semver).Success? ==>
      r == CheckVersion("git", "git version ", "^2.40", git, semver)
  {
    match CheckVersion("python", "Python ", "^3.10", python, semver)
    case Failure(e) => Failure(e)
    case Success(_) => CheckVersion("git", "git version ", "^2.40", git, semver)
  }

  /** A version that parses but misses the requirement is `BadVersion`
      carrying the program, the version and the requirement; one that
      meets it passes. */
  lemma CheckVersionOutcome(prog: string, prefix: string, req: string, run: Spawn, semver: Semver)
    requires Version(prog, prefix, run).Success? && semver.parse(Version(prog, prefix, run).value).Some?
    ensures var version := semver.parse(Version(prog, prefix, run).value).value;
      CheckVersion(prog, prefix, req, run, semver)
        == if semver.matches(req, version) then Success(()) else Failure(BadVersion(prog, version, req))
  {
  }

  /** Output without the expected prefix is a parse failure. */
  lemma MissingPrefix(prog: string, prefix: string, stdout: string)
    requires !StartsWith(stdout, prefix)
    ensures Version(prog, prefix, Spawned(None, Success(stdout))) == Failure(ParseFailure)
  {
  }

  /** The `BadVersion` message. */
  lemma BadVersionMessage(prog: string, version: string, requirement: string)
    ensures Display(BadVersion(prog, version, requirement))
         == prog + " " + version + " doesn't satisfy required version " + requirement
  {
  }

  /** If both tools are missing, only Python is reported. */
  lemma PythonFirst(git: Spawn, message: string, semver: Semver)
    ensures CheckVersionsAll(SpawnFailed(true, message), git, semver) == Failure(NotFound("python"))
  {
  }
}
