/** Where vexmason is installed and where the user's home directory is,
    from `src/installation_location.rs`. On Windows the answer comes from
    an environment variable or, when that is missing, from the component
    sequence of a reference path inside the user's directory. */
module InstallationLocation {
  import opened Wrappers
  import opened Paths

  /** The platform `cfg!` selects. */
  datatype Platform = Windows | Linux | OtherOs

  const InstallationDirectory: string := "vexmason"
  const UsersSegment: string := "Users"

  /** `~/.local/bin`, as its components. */
  const LinuxBin: Path := [Normal(Os("~")), Normal(Os(".local")), Normal(Os("bin"))]

  datatype LocationError =
    | Canonicalize(cause: string)
    | Relative
    | TooShort
    | SystemPath
    | MissingVariable(variable: string, purpose: string)
    | Unsupported

  /** The message each error carries; a failed canonicalisation passes on
      the message of its I/O error. */
  function Message(e: LocationError): string {
    match e
    case Canonicalize(cause) => cause
    case Relative => "path is relative so the user directory cannot be determined"
    case TooShort => "path is not long enough to determine user directory"
    case SystemPath => "path is a system path and does not contain /Users/"
    case MissingVariable(variable, purpose) =>
      "can't get " + purpose + ": couldn't recover from missing " + variable
    case Unsupported => "unsupported operating system"
  }

  /** The index of the first `RootDir` component. */
  function FirstRoot(p: Path): (r: Option<nat>)
    ensures r.Some? ==> r.value < |p| && p[r.value] == RootDir
                        && forall i :: 0 <= i < r.value ==> p[i] != RootDir
    ensures r.None? ==> forall i :: 0 <= i < |p| ==> p[i] != RootDir
  {
    if |p| == 0 then None
    else if p[0] == RootDir then Some(0)
    else
      match FirstRoot(p[1..])
      case None => None
      case Some(i) => Some(i + 1)
  }

  /** The user directory read off a canonical path: the components up to
      and including the one after `Users`, which must directly follow the
      first root. */
  function UserDirOf(p: Path): (r: Result<Path, LocationError>)
    ensures FirstRoot(p).None? <==> r == Failure(Relative)
    ensures r.Success? <==> FirstRoot(p).Some? && |p| > FirstRoot(p).value + 2
                            && p[FirstRoot(p).value + 1] == Normal(Os(UsersSegment))
    ensures r.Success? ==> r.value == p[..FirstRoot(p).value + 3]
  {
    match FirstRoot(p)
    case None => Failure(Relative)
    case Some(root) =>
      if !(|p| > root + 2) then Failure(TooShort)
      else if p[root + 1] != Normal(Os(UsersSegment)) then Failure(SystemPath)
      else Success(p[..root + 3])
  }

  /** The fallback shared by both derivations: canonicalize the reference
      path, then read the user directory off it; with no reference path the
      missing variable is the error. */
  function Fallback(reference: Option<Path>, canonicalize: Path -> Result<Path, string>, missing: LocationError)
    : Result<Path, LocationError>
  {
    match reference
    case None => Failure(missing)
    case Some(path) =>
      match canonicalize(path)
      case Failure(cause) => Failure(Canonicalize(cause))
      case Success(canonical) => UserDirOf(canonical)
  }

  /** `get_user_directory`: `USERPROFILE` as it is, else the fallback, on
      Windows; `~` on Linux. */
  function UserDirectory(platform: Platform, userProfile: Option<Path>, reference: Option<Path>,
                         canonicalize: Path -> Result<Path, string>): (r: Result<Path, LocationError>)
    ensures platform.OtherOs? ==> r == Failure(Unsupported)
    ensures platform.Linux? ==> r == Success(Name("~"))
  {
    match platform
    case Windows =>
      if userProfile.Some? then Success(userProfile.value)
      else Fallback(reference, canonicalize, MissingVariable("USERPROFILE", "installation path"))
    case Linux => Success(Name("~"))
    case OtherOs => Failure(Unsupported)
  }

  /** The local application-data directory: `LOCALAPPDATA` as it is, else
      the fallback user directory followed by `AppData\Local`. */
  function LocalAppData(localAppData: Option<Path>, reference: Option<Path>, canonicalize: Path -> Result<Path, string>)
    : Result<Path, LocationError>
  {
    if localAppData.Some? then Success(localAppData.value)
    else
      match Fallback(reference, canonicalize, MissingVariable("LOCALAPPDATA", "installation path"))
      case Failure(e) => Failure(e)
      case Success(user) => Success(Join(Join(user, Name("AppData")), Name("Local")))
  }

  /** `get_installation_path`: `LOCALAPPDATA` as it is, else the fallback
      user directory followed by `AppData\Local`, on Windows; then the
      `vexmason` directory. On Linux the path is `~/.local/bin/vexmason`. */
  function InstallationPath(platform: Platform, localAppData: Option<Path>, reference: Option<Path>,
                            canonicalize: Path -> Result<Path, string>): (r: Result<Path, LocationError>)
    ensures platform.OtherOs? ==> r == Failure(Unsupported)
  {
    match platform
    case Windows =>
      (match LocalAppData(localAppData, reference, canonicalize)
       case Failure(e) => Failure(e)
       case Success(dir) => Success(Join(dir, Name(InstallationDirectory))))
    case Linux => Success(Join(LinuxBin, Name(InstallationDirectory)))
    case OtherOs => Failure(Unsupported)
  }

  /** A set environment variable is the answer as it is; the reference path
      is not looked at. */
  lemma VariableUsedAsIs(dir: Path, reference: Option<Path>, canonicalize: Path -> Result<Path, string>)
    ensures UserDirectory(Windows, Some(dir), reference, canonicalize) == Success(dir)
    ensures InstallationPath(Windows, Some(dir), reference, canonicalize)
         == Success(dir + [Normal(Os(InstallationDirectory))])
  {
  }

  /** Without the variable and without a reference path there is no
      answer. */
  lemma MissingWithoutReference(canonicalize: Path -> Result<Path, string>)
    ensures UserDirectory(Windows, None, None, canonicalize).Failure?
    ensures InstallationPath(Windows, None, None, canonicalize).Failure?
    ensures UserDirectory(Windows, None, None, canonicalize).error
         == MissingVariable("USERPROFILE", "installation path")
    ensures InstallationPath(Windows, None, None, canonicalize).error
         == MissingVariable("LOCALAPPDATA", "installation path")
  {
  }

  /** A successful fallback user directory is a prefix of the canonical
      path: everything before the first root, the root, `Users` and one
      more component. */
  lemma {:induction false} FallbackShape(p: Path)
    requires UserDirOf(p).Success?
    ensures var u := UserDirOf(p).value;
      && |u| == FirstRoot(p).value + 3 && u <= p
      && u[|u| - 3] == RootDir && u[|u| - 2] == Normal(Os(UsersSegment))
      && forall i :: 0 <= i < |u| - 3 ==> u[i] != RootDir
  {
  }

  /** Each failure of the fallback names the first check that fails. */
  lemma FallbackErrors(p: Path)
    ensures FirstRoot(p).Some? && |p| <= FirstRoot(p).value + 2 ==> UserDirOf(p) == Failure(TooShort)
    ensures (FirstRoot(p).Some? && |p| > FirstRoot(p).value + 2
             && p[FirstRoot(p).value + 1] != Normal(Os(UsersSegment))) ==> UserDirOf(p) == Failure(SystemPath)
  {
  }

  /** Every installation path ends in the `vexmason` directory, whose
      parent is the variable's directory, the fallback user directory's
      `AppData\Local`, or `~/.local/bin`. */
  lemma InstallationEndsInDirectory(platform: Platform, localAppData: Option<Path>, reference: Option<Path>,
                                    canonicalize: Path -> Result<Path, string>)
    ensures var r := InstallationPath(platform, localAppData, reference, canonicalize);
      r.Success? ==> |r.value| > 0 && r.value[|r.value| - 1] == Normal(Os(InstallationDirectory))
    ensures platform.Linux? ==>
      InstallationPath(platform, localAppData, reference, canonicalize) == Success(LinuxBin + Name(InstallationDirectory))
  {
  }

  /** Without `LOCALAPPDATA` the installation path follows the user
      directory the same reference path gives without `USERPROFILE`: the
      same error, or that directory with `AppData\Local\vexmason` added. */
  lemma InstallationFollowsUserDirectory(reference: Option<Path>, canonicalize: Path -> Result<Path, string>)
    ensures var user := UserDirectory(Windows, None, reference, canonicalize);
      var install := InstallationPath(Windows, None, reference, canonicalize);
      && (user.Success? <==> install.Success?)
      && (user.Success? ==>
            install.value == user.value + [Normal(Os("AppData")), Normal(Os("Local")), Normal(Os(InstallationDirectory))])
      && (user.Failure? && !user.error.MissingVariable? ==> install == Failure(user.error))
  {
  }
}
