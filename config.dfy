/** The configuration resolver of `src/config.rs`: the upward search for
    the project root, the loading of the local overrides file, and the
    merge of default defines with local overrides into one
    `ResolvedConfig`. Files, the version requirement check, the
    validation rules of defines, the clock and path canonicalisation are
    inputs. */
module Config {
  import opened Wrappers
  import Text
  import opened Sequences
  import opened Paths
  import opened ConfigModel
  import opened Template

  /** `DEFAULT_DESCRIPTION`. */
  const DefaultDescription: string :=
    "compiled by vexmason\nat {{ time/hour }}:{{ time/minute }}\nby {{ computer-name }} | {{ language::short }} | min: {{ minify::short }}\n| {{ defines::count }} defines:\n{{ defines::list }}\n"
  /** `DEFAULT_MINIFY`. */
  const DefaultMinify: bool := false
  /** `CONFIG_FILE`. */
  const ConfigFile: string := "vexmason-config.json"
  /** `CONFIG_OVERRIDES_FILE`. */
  const ConfigOverridesFile: string := "vexmason-local-config.json"
  /** The computer name used when the overrides give none. */
  const UnknownComputer: string := "unknown"
  /** `src/main.py`, the entry file used when the config gives none. */
  const DefaultEntryFile: Path := [Normal(Os("src")), Normal(Os("main.py"))]

  // Finding the project root

  /** The files and directories that exist. */
  datatype FileSystem = FileSystem(files: set<Path>, dirs: set<Path>)

  /** `dir/.vscode/<file>`. */
  function Marker(dir: Path, file: string): (p: Path)
    ensures p == dir + [Normal(Os(".vscode")), Normal(Os(file))]
  {
    Join(Join(dir, Name(".vscode")), Name(file))
  }

  /** `dir` holds both `.vscode/vex_project_settings.json` and
      `.vscode/vexmason-config.json` as files. */
  predicate IsProject(fs: FileSystem, dir: Path) {
    Marker(dir, "vex_project_settings.json") in fs.files && Marker(dir, ConfigFile) in fs.files
  }

  /** Where the walk starts: the entry's parent if the entry is a file,
      the entry itself otherwise. */
  function WalkStart(fs: FileSystem, entry: Path): (p: Path)
    ensures entry in fs.files ==> p == Pop(entry)
    ensures entry !in fs.files ==> p == entry
  {
    if entry in fs.files then Pop(entry) else entry
  }

  /** The walk from `buf`: the first existing directory holding the
      project markers, going up one parent at a time, and `None` once a
      non-directory or the top of the path is reached. */
  function FindRoot(fs: FileSystem, buf: Path): (r: Option<Path>)
    ensures r.Some? ==> r.value <= buf && r.value in fs.dirs && IsProject(fs, r.value)
    ensures buf !in fs.dirs ==> r.None?
    decreases |buf|
  {
    if buf !in fs.dirs then None
    else if IsProject(fs, buf) then Some(buf)
    else
      match Parent(buf)
      case None => None
      case Some(up) => FindRoot(fs, up)
  }

  /** The walk from `p` passes every ancestor longer than `p[..k]` and
      moves on from it: each is an existing directory without the
      markers and has a parent. */
  ghost predicate Passes(fs: FileSystem, p: Path, k: nat) {
    k <= |p|
    && forall m :: k < m <= |p| ==> p[..m] in fs.dirs && !IsProject(fs, p[..m]) && Parent(p[..m]).Some?
  }

  /** A root found by the walk is an ancestor of the start holding the
      markers, and every ancestor below it was passed. */
  lemma {:induction false} FindRootSound(fs: FileSystem, p: Path)
    requires FindRoot(fs, p).Some?
    ensures var d := FindRoot(fs, p).value;
      |d| <= |p| && d == p[..|d|] && d in fs.dirs && IsProject(fs, d) && Passes(fs, p, |d|)
    decreases |p|
  {
    if p in fs.dirs && !IsProject(fs, p) {
      var up := Parent(p).value;
      FindRootSound(fs, up);
      var d := FindRoot(fs, up).value;
      assert up[..|d|] == p[..|d|];
      forall m | |d| < m <= |p| ensures p[..m] in fs.dirs && !IsProject(fs, p[..m]) && Parent(p[..m]).Some? {
        if m < |p| {
          assert p[..m] == up[..m];
        } else {
          assert p[..m] == p;
        }
      }
    } else {
      assert p[..|p|] == p;
    }
  }

  /** The walk does not pass a project directory it reaches: it returns
      the deepest reachable ancestor holding the markers. */
  lemma {:induction false} FindRootComplete(fs: FileSystem, p: Path, k: nat)
    requires Passes(fs, p, k) && p[..k] in fs.dirs && IsProject(fs, p[..k])
    ensures FindRoot(fs, p).Some? && k <= |FindRoot(fs, p).value|
    decreases |p|
  {
    if k < |p| {
      assert p[..|p|] == p;
      var up := Parent(p).value;
      assert up[..k] == p[..k];
      forall m | k < m <= |up| ensures up[..m] in fs.dirs && !IsProject(fs, up[..m]) && Parent(up[..m]).Some? {
        assert up[..m] == p[..m];
      }
      FindRootComplete(fs, up, k);
    } else {
      assert p[..k] == p;
    }
  }

  /** `root`, with the walk stopping at the top of the path (see
      `WrittenWalkNeverEnds` for the walk as written). */
  method Root(fs: FileSystem, entry: Path) returns (r: Option<Path>)
    ensures r == FindRoot(fs, WalkStart(fs, entry))
  {
    var buf := entry;
    if buf in fs.files {
      buf := Pop(buf);
    }
    while buf in fs.dirs
      invariant FindRoot(fs, buf) == FindRoot(fs, WalkStart(fs, entry))
      decreases |buf|
    {
      if IsProject(fs, buf) {
        return Some(buf);
      }
      match Parent(buf)
      case None =>
        return None;
      case Some(up) =>
        buf := up;
    }
    return None;
  }

  /** One turn of the loop of `root` as written: `pop` leaves the path
      unchanged when it has no parent. */
  datatype WalkState = Walking(buf: Path) | Returned(result: Option<Path>)

  function WrittenStep(fs: FileSystem, buf: Path): WalkState {
    if buf !in fs.dirs then Returned(None)
    else if IsProject(fs, buf) then Returned(Some(buf))
    else Walking(Pop(buf))
  }

  /** The state of the as-written loop after `n` turns. */
  function WrittenRun(fs: FileSystem, buf: Path, n: nat): WalkState {
    if n == 0 then Walking(buf)
    else
      match WrittenRun(fs, buf, n - 1)
      case Walking(b) => WrittenStep(fs, b)
      case Returned(r) => Returned(r)
  }

  /** At an existing top directory without the markers, such as `C:\`, the
      loop as written never returns. */
  lemma {:induction false} WrittenWalkNeverEnds(fs: FileSystem, top: Path, n: nat)
    requires top in fs.dirs && !IsProject(fs, top) && Parent(top).None?
    ensures WrittenRun(fs, top, n) == Walking(top)
  {
    if n > 0 {
      WrittenWalkNeverEnds(fs, top, n - 1);
    }
  }

  /** `C:\work` on a disk with no project: the walk as written reaches
      `C:\` after one turn and stays there, where the corrected walk
      returns `None`. */
  lemma WrittenWalkExample(n: nat)
    ensures var top := [Prefix(Os("C:")), RootDir];
      var fs := FileSystem({}, {top, top + Name("work")});
      WrittenRun(fs, top + Name("work"), n + 1) == Walking(top)
      && FindRoot(fs, top + Name("work")) == None
  {
    var top := [Prefix(Os("C:")), RootDir];
    var fs := FileSystem({}, {top, top + Name("work")});
    var work := top + Name("work");
    assert Parent(work) == Some(top);
    assert WrittenRun(fs, work, 1) == Walking(top);
    WrittenWalkNeverEnds(fs, top, n);
    RunFrom(fs, work, top, 1, n);
  }

  /** Running `n` more turns after reaching `b` is running from `b`. */
  lemma {:induction false} RunFrom(fs: FileSystem, start: Path, b: Path, k: nat, n: nat)
    requires WrittenRun(fs, start, k) == Walking(b)
    ensures WrittenRun(fs, start, k + n) == WrittenRun(fs, b, n)
  {
    if n > 0 {
      RunFrom(fs, start, b, k, n - 1);
    }
  }

  // Loading the overrides

  /** What opening and parsing the overrides file gave: its parsed content
      (`None` when it could not be read or parsed), or that it does not
      exist, or another open error. */
  datatype OverridesLoad = Opened(parsed: Option<OverridesConfig>) | NotFound | OpenFailed

  /** Why resolution failed. */
  datatype ConfigError =
    | ReadConfig
    | ReadOverrides
    | VersionMismatch
    | VersionReqParse
    | UnsupportedVersion
    | InvalidDefault(key: string)
    | InvalidOverride(key: string, value: DefineValue)
    | Canonicalize

  /** `config_overrides_from_file`: a missing file stands for overrides
      with the base config's version and nothing else. */
  function OverridesFromFile(load: OverridesLoad, configVersion: string): (r: Result<OverridesConfig, ConfigError>)
    ensures load.NotFound? ==> r == Success(OverridesConfig(configVersion, None, None))
    ensures load.Opened? && load.parsed.Some? ==> r == Success(load.parsed.value)
    ensures load.OpenFailed? || load == Opened(None) ==> r == Failure(ReadOverrides)
  {
    match load
    case Opened(Some(o)) => Success(o)
    case Opened(None) => Failure(ReadOverrides)
    case NotFound => Success(OverridesConfig(configVersion, None, None))
    case OpenFailed => Failure(ReadOverrides)
  }

  // Merging the defines

  /** The first loop over `default_defines`, in the iteration order
      `order`: each default must pass its own validation. */
  function DefaultsFold<D>(order: seq<string>, defaults: map<string, D>, rules: DefineRules<D>)
    : (r: Result<map<string, DefineValue>, ConfigError>)
    ensures r.Success? ==> forall k :: k in r.value ==> k in defaults && k in order
    ensures r.Failure? ==> r.error.InvalidDefault? && r.error.key in order && r.error.key in defaults
    decreases |order|
  {
    if order == [] then Success(map[])
    else
      var k := order[|order| - 1];
      match DefaultsFold(order[..|order| - 1], defaults, rules)
      case Failure(e) => Failure(e)
      case Success(m) =>
        if k !in defaults then Success(m)
        else if !rules.validateDefault(defaults[k]) then Failure(InvalidDefault(k))
        else Success(m[k := rules.defaultValue(defaults[k])])
  }

  /** The second loop, over the overrides in the iteration order `order`,
      starting from the resolved defaults `start`. */
  function OverridesFold<D>(order: seq<string>, start: map<string, DefineValue>, defaults: map<string, D>,
                            overrides: map<string, DefineValue>, rules: DefineRules<D>)
    : (r: Result<map<string, DefineValue>, ConfigError>)
    ensures r.Success? ==> r.value.Keys == start.Keys
    ensures r.Failure? ==> r.error.InvalidOverride? && r.error.key in order && r.error.key in overrides
    decreases |order|
  {
    if order == [] then Success(start)
    else
      var k := order[|order| - 1];
      match OverridesFold(order[..|order| - 1], start, defaults, overrides, rules)
      case Failure(e) => Failure(e)
      case Success(m) =>
        if k !in overrides || k !in m || k !in defaults then Success(m)
        else if rules.validate(defaults[k], overrides[k]) then Success(m[k := overrides[k]])
        else Failure(InvalidOverride(k, overrides[k]))
  }

  /** The defaults loop fails exactly when some visited default fails its
      validation, names such a key, and otherwise maps every visited key
      to its default value. */
  lemma {:induction false} DefaultsFoldShape<D>(order: seq<string>, defaults: map<string, D>, rules: DefineRules<D>)
    requires forall i :: 0 <= i < |order| ==> order[i] in defaults
    ensures DefaultsFold(order, defaults, rules).Success?
        <==> forall i :: 0 <= i < |order| ==> rules.validateDefault(defaults[order[i]])
    ensures DefaultsFold(order, defaults, rules).Success? ==>
      var m := DefaultsFold(order, defaults, rules).value;
      (forall k :: k in m <==> k in order) && forall k :: k in m ==> m[k] == rules.defaultValue(defaults[k])
    ensures DefaultsFold(order, defaults, rules).Failure? ==>
      var e := DefaultsFold(order, defaults, rules).error;
      e.InvalidDefault? && e.key in order && !rules.validateDefault(defaults[e.key])
    decreases |order|
  {
    if order != [] {
      var init := order[..|order| - 1];
      DefaultsFoldShape(init, defaults, rules);
      assert forall k :: k in order <==> k in init || k == order[|order| - 1] by {
        assert order == init + [order[|order| - 1]];
      }
    }
  }

  /** The overrides loop keeps the key set, replaces exactly the visited
      overridden keys that have a default, fails exactly when one of those
      values is rejected, and then names that key and value. */
  lemma {:induction false} OverridesFoldShape<D>(order: seq<string>, start: map<string, DefineValue>,
                                                 defaults: map<string, D>, overrides: map<string, DefineValue>,
                                                 rules: DefineRules<D>)
    requires start.Keys <= defaults.Keys
    ensures OverridesFold(order, start, defaults, overrides, rules).Success?
        <==> forall i :: 0 <= i < |order| && order[i] in overrides && order[i] in start
               ==> rules.validate(defaults[order[i]], overrides[order[i]])
    ensures OverridesFold(order, start, defaults, overrides, rules).Success? ==>
      var m := OverridesFold(order, start, defaults, overrides, rules).value;
      m.Keys == start.Keys
      && forall k :: k in start ==> m[k] == if k in overrides && k in order then overrides[k] else start[k]
    ensures OverridesFold(order, start, defaults, overrides, rules).Failure? ==>
      var e := OverridesFold(order, start, defaults, overrides, rules).error;
      e.InvalidOverride? && e.key in order && e.key in start && e.key in overrides
      && e.value == overrides[e.key] && !rules.validate(defaults[e.key], e.value)
    decreases |order|
  {
    if order != [] {
      var init := order[..|order| - 1];
      OverridesFoldShape(init, start, defaults, overrides, rules);
      assert forall k :: k in order <==> k in init || k == order[|order| - 1] by {
        assert order == init + [order[|order| - 1]];
      }
    }
  }

  /** A failure in the defaults loop is final. */
  lemma {:induction false} DefaultsFailureSticks<D>(order: seq<string>, j: nat, defaults: map<string, D>, rules: DefineRules<D>)
    requires j <= |order| && DefaultsFold(order[..j], defaults, rules).Failure?
    ensures DefaultsFold(order, defaults, rules) == DefaultsFold(order[..j], defaults, rules)
    decreases |order|
  {
    if j < |order| {
      assert order[..|order| - 1][..j] == order[..j];
      DefaultsFailureSticks(order[..|order| - 1], j, defaults, rules);
    } else {
      assert order[..j] == order;
    }
  }

  /** A failure in the overrides loop is final. */
  lemma {:induction false} OverridesFailureSticks<D>(order: seq<string>, j: nat, start: map<string, DefineValue>,
                                                     defaults: map<string, D>, overrides: map<string, DefineValue>,
                                                     rules: DefineRules<D>)
    requires j <= |order| && OverridesFold(order[..j], start, defaults, overrides, rules).Failure?
    ensures OverridesFold(order, start, defaults, overrides, rules)
         == OverridesFold(order[..j], start, defaults, overrides, rules)
    decreases |order|
  {
    if j < |order| {
      assert order[..|order| - 1][..j] == order[..j];
      OverridesFailureSticks(order[..|order| - 1], j, start, defaults, overrides, rules);
    } else {
      assert order[..j] == order;
    }
  }

  /** With no overrides the second loop changes nothing. */
  lemma {:induction false} NoOverrides<D>(order: seq<string>, start: map<string, DefineValue>,
                                          defaults: map<string, D>, rules: DefineRules<D>)
    ensures OverridesFold(order, start, defaults, map[], rules) == Success(start)
    decreases |order|
  {
    if order != [] {
      NoOverrides(order[..|order| - 1], start, defaults, rules);
    }
  }

  // Resolution

  /** Everything resolution reads besides the paths: the file contents, the
      check of `^<version>` against the supported version (`None` when the
      requirement does not parse), the define rules, the iteration orders
      of the default, override and resolved define maps, the clock and
      `dunce::canonicalize` (`None` when it fails). */
  datatype Environment<!D> = Environment(
    readConfig: Path -> Option<RawConfig<D>>,
    readOverrides: Path -> OverridesLoad,
    versionGate: string -> Option<bool>,
    rules: DefineRules<D>,
    defaultOrder: seq<string>,
    overrideOrder: seq<string>,
    listOrder: seq<string>,
    clock: Clock,
    canonicalize: Path -> Option<Path>)

  function DefaultsOf<D>(config: RawConfig<D>): map<string, D> {
    if config.defaultDefines.Some? then config.defaultDefines.value else map[]
  }

  function OverridesOf(ov: OverridesConfig): map<string, DefineValue> {
    if ov.definesOverrides.Some? then ov.definesOverrides.value else map[]
  }

  /** The two define loops. */
  function ResolveDefines<D>(config: RawConfig<D>, ov: OverridesConfig, env: Environment<D>)
    : Result<map<string, DefineValue>, ConfigError>
  {
    match DefaultsFold(env.defaultOrder, DefaultsOf(config), env.rules)
    case Failure(e) => Failure(e)
    case Success(m) => OverridesFold(env.overrideOrder, m, DefaultsOf(config), OverridesOf(ov), env.rules)
  }

  /** The template arguments: the computer name defaults to `unknown` and
      minify to `false`; the defines are the resolved ones. */
  function TemplateContext<D>(config: RawConfig<D>, ov: OverridesConfig, defines: map<string, DefineValue>,
                              env: Environment<D>): Context
  {
    Context(
      if ov.computerName.Some? then ov.computerName.value else UnknownComputer,
      config.language,
      if config.minify.Some? then config.minify.value else DefaultMinify,
      defines,
      env.listOrder,
      env.clock)
  }

  /** The description template: the config's, or `DEFAULT_DESCRIPTION` on
      one line. */
  function DescriptionTemplate<D>(config: RawConfig<D>): string {
    if config.description.Some? then config.description.value
    else Text.ReplaceChar(DefaultDescription, '\n', ' ')
  }

  /** Everything after the defines: templates, minify and the entry file. */
  function Finish<D>(config: RawConfig<D>, ov: OverridesConfig, defines: map<string, DefineValue>,
                     env: Environment<D>, projectRoot: Path): Result<ResolvedConfig, ConfigError>
  {
    var ctx := TemplateContext(config, ov, defines, env);
    var entry := Join(projectRoot, if config.entryFile.Some? then config.entryFile.value else DefaultEntryFile);
    match env.canonicalize(entry)
    case None => Failure(Canonicalize)
    case Some(canonical) =>
      Success(ResolvedConfig(
        EvaluateTemplate(config.name, ctx),
        EvaluateTemplate(DescriptionTemplate(config), ctx),
        config.language,
        defines,
        projectRoot,
        ctx.minify,
        canonical))
  }

  /** `resolved_config_from_files`. */
  function Resolve<D>(env: Environment<D>, configPath: Path, overridesPath: Path, projectRoot: Path)
    : Result<ResolvedConfig, ConfigError>
  {
    match env.readConfig(configPath)
    case None => Failure(ReadConfig)
    case Some(config) =>
      match OverridesFromFile(env.readOverrides(overridesPath), config.configVersion)
      case Failure(e) => Failure(e)
      case Success(ov) =>
        if config.configVersion != ov.configVersion then Failure(VersionMismatch)
        else
          match env.versionGate("^" + config.configVersion)
          case None => Failure(VersionReqParse)
          case Some(false) => Failure(UnsupportedVersion)
          case Some(true) =>
            match ResolveDefines(config, ov, env)
            case Failure(e) => Failure(e)
            case Success(defines) => Finish(config, ov, defines, env, projectRoot)
  }

  /** `resolved_config_from_files`, filling the resolved defines map in
      place over the two loops. */
  method ResolvedConfigFromFiles<D>(env: Environment<D>, configPath: Path, overridesPath: Path, projectRoot: Path)
    returns (r: Result<ResolvedConfig, ConfigError>)
    ensures r == Resolve(env, configPath, overridesPath, projectRoot)
  {
    var read := env.readConfig(configPath);
    if read.None? {
      return Failure(ReadConfig);
    }
    var config := read.value;
    var loaded := OverridesFromFile(env.readOverrides(overridesPath), config.configVersion);
    if loaded.Failure? {
      return Failure(loaded.error);
    }
    var ov := loaded.value;
    if config.configVersion != ov.configVersion {
      return Failure(VersionMismatch);
    }
    var gate := env.versionGate("^" + config.configVersion);
    if gate.None? {
      return Failure(VersionReqParse);
    }
    if !gate.value {
      return Failure(UnsupportedVersion);
    }
    var defaults := DefaultsOf(config);
    var resolved := DefaultsLoop(env.defaultOrder, defaults, env.rules);
    if resolved.Failure? {
      return Failure(resolved.error);
    }
    if ov.definesOverrides.Some? {
      resolved := OverridesLoop(env.overrideOrder, resolved.value, defaults, ov.definesOverrides.value, env.rules);
      if resolved.Failure? {
        return Failure(resolved.error);
      }
    } else {
      NoOverrides(env.overrideOrder, resolved.value, defaults, env.rules);
    }
    r := Finish(config, ov, resolved.value, env, projectRoot);
  }

  /** The first loop of `resolved_config_from_files`: the resolved map is
      filled in place with the default of each visited key. */
  method DefaultsLoop<D>(order: seq<string>, defaults: map<string, D>, rules: DefineRules<D>)
    returns (r: Result<map<string, DefineValue>, ConfigError>)
    ensures r == DefaultsFold(order, defaults, rules)
  {
    var resolved: map<string, DefineValue> := map[];
    for i := 0 to |order|
      invariant DefaultsFold(order[..i], defaults, rules) == Success(resolved)
    {
      var define := order[i];
      assert order[..i + 1][..i] == order[..i];
      if define in defaults {
        if !rules.validateDefault(defaults[define]) {
          DefaultsFailureSticks(order, i + 1, defaults, rules);
          return Failure(InvalidDefault(define));
        }
        resolved := resolved[define := rules.defaultValue(defaults[define])];
      }
    }
    assert order[..|order|] == order;
    return Success(resolved);
  }

  /** The second loop: each visited override with a resolved default is
      validated by that default and written into the map. */
  method OverridesLoop<D>(order: seq<string>, start: map<string, DefineValue>, defaults: map<string, D>,
                          overrides: map<string, DefineValue>, rules: DefineRules<D>)
    returns (r: Result<map<string, DefineValue>, ConfigError>)
    ensures r == OverridesFold(order, start, defaults, overrides, rules)
  {
    var resolved := start;
    for i := 0 to |order|
      invariant OverridesFold(order[..i], start, defaults, overrides, rules) == Success(resolved)
    {
      var defineOverride := order[i];
      assert order[..i + 1][..i] == order[..i];
      if defineOverride in overrides {
        var value := overrides[defineOverride];
        if defineOverride in resolved {
          if defineOverride in defaults {
            if rules.validate(defaults[defineOverride], value) {
              resolved := resolved[defineOverride := value];
            } else {
              OverridesFailureSticks(order, i + 1, start, defaults, overrides, rules);
              return Failure(InvalidOverride(defineOverride, value));
            }
          }
        }
      }
    }
    assert order[..|order|] == order;
    return Success(resolved);
  }

  /** Where `resolved_config_from_root` looks for the two files. */
  function ConfigPath(root: Path): (p: Path)
    ensures p == root + [Normal(Os(".vscode")), Normal(Os("vexmason-config.json"))]
  {
    Marker(root, ConfigFile)
  }

  function OverridesPath(root: Path): (p: Path)
    ensures p == root + [Normal(Os(".vscode")), Normal(Os("vexmason-local-config.json"))]
  {
    Marker(root, ConfigOverridesFile)
  }

  /** `resolved_config_from_root`: the files under `<root>/.vscode`, with
      `root` as the project root. */
  method ResolvedConfigFromRoot<D>(env: Environment<D>, root: Path) returns (r: Result<ResolvedConfig, ConfigError>)
    ensures r == Resolve(env, root + [Normal(Os(".vscode")), Normal(Os("vexmason-config.json"))],
                         root + [Normal(Os(".vscode")), Normal(Os("vexmason-local-config.json"))], root)
  {
    r := ResolvedConfigFromFiles(env, ConfigPath(root), OverridesPath(root), root);
  }

  // What resolution promises

  /** The defines after a successful merge: every default, replaced by its
      override where there is one. */
  function MergedDefines<D>(defaults: map<string, D>, overrides: map<string, DefineValue>, rules: DefineRules<D>)
    : map<string, DefineValue>
  {
    map k | k in defaults :: if k in overrides then overrides[k] else rules.defaultValue(defaults[k])
  }

  /** Configs of different versions fail before any define is examined: the
      result is the same whatever the define rules and iteration orders. */
  lemma VersionMismatchFirst<D>(env: Environment<D>, configPath: Path, overridesPath: Path, root: Path,
                                rules: DefineRules<D>, defaultOrder: seq<string>, overrideOrder: seq<string>)
    requires env.readConfig(configPath).Some?
    requires var v := env.readConfig(configPath).value.configVersion;
      OverridesFromFile(env.readOverrides(overridesPath), v).Success?
      && OverridesFromFile(env.readOverrides(overridesPath), v).value.configVersion != v
    ensures Resolve(env, configPath, overridesPath, root) == Failure(VersionMismatch)
    ensures Resolve(env.(rules := rules, defaultOrder := defaultOrder, overrideOrder := overrideOrder),
                    configPath, overridesPath, root) == Failure(VersionMismatch)
  {
  }

  /** A default that fails its own validation makes resolution fail on a
      default, whatever the overrides say. */
  lemma InvalidDefaultFails<D>(env: Environment<D>, configPath: Path, overridesPath: Path, root: Path,
                               config: RawConfig<D>, key: string)
    requires env.readConfig(configPath) == Some(config)
    requires Enumerates(env.defaultOrder, DefaultsOf(config).Keys)
    requires key in DefaultsOf(config) && !env.rules.validateDefault(DefaultsOf(config)[key])
    ensures var r := Resolve(env, configPath, overridesPath, root);
      r.Failure? && !r.error.InvalidOverride? && !r.error.Canonicalize? && !r.error.ReadConfig?
      && (r.error.InvalidDefault? ==>
            r.error.key in DefaultsOf(config) && !env.rules.validateDefault(DefaultsOf(config)[r.error.key]))
  {
    var d := DefaultsOf(config);
    DefaultsFoldShape(env.defaultOrder, d, env.rules);
    var i :| 0 <= i < |env.defaultOrder| && env.defaultOrder[i] == key;
  }

  /** A successful resolution keeps exactly the default keys, every default
      and every applied override passed validation, and each define is its
      override when there is one and its default otherwise. */
  lemma ResolvedDefinesShape<D>(env: Environment<D>, configPath: Path, overridesPath: Path, root: Path,
                                config: RawConfig<D>, ov: OverridesConfig)
    requires env.readConfig(configPath) == Some(config)
    requires OverridesFromFile(env.readOverrides(overridesPath), config.configVersion) == Success(ov)
    requires Enumerates(env.defaultOrder, DefaultsOf(config).Keys)
    requires Enumerates(env.overrideOrder, OverridesOf(ov).Keys)
    requires Resolve(env, configPath, overridesPath, root).Success?
    ensures var c := Resolve(env, configPath, overridesPath, root).value;
      var d := DefaultsOf(config);
      var o := OverridesOf(ov);
      c.defines == MergedDefines(d, o, env.rules)
      && (forall k :: k in d ==> env.rules.validateDefault(d[k]))
      && (forall k :: k in d && k in o ==> env.rules.validate(d[k], o[k]))
  {
    DefinesShape(config, ov, env);
  }

  /** The merge of the two loops, for orders that enumerate the maps. */
  lemma DefinesShape<D>(config: RawConfig<D>, ov: OverridesConfig, env: Environment<D>)
    requires Enumerates(env.defaultOrder, DefaultsOf(config).Keys)
    requires Enumerates(env.overrideOrder, OverridesOf(ov).Keys)
    ensures var d := DefaultsOf(config);
      var o := OverridesOf(ov);
      var valid := (forall k :: k in d ==> env.rules.validateDefault(d[k]))
                   && (forall k :: k in d && k in o ==> env.rules.validate(d[k], o[k]));
      ResolveDefines(config, ov, env).Success? <==> valid
    ensures ResolveDefines(config, ov, env).Success? ==>
      ResolveDefines(config, ov, env).value == MergedDefines(DefaultsOf(config), OverridesOf(ov), env.rules)
    ensures ResolveDefines(config, ov, env).Failure? ==>
      var e := ResolveDefines(config, ov, env).error;
      var d := DefaultsOf(config);
      var o := OverridesOf(ov);
      (e.InvalidDefault? && e.key in d && !env.rules.validateDefault(d[e.key]))
      || (e.InvalidOverride? && e.key in d && e.key in o && e.value == o[e.key] && !env.rules.validate(d[e.key], e.value))
  {
    var d := DefaultsOf(config);
    var o := OverridesOf(ov);
    DefaultsPhase(env.defaultOrder, d, env.rules);
    match DefaultsFold(env.defaultOrder, d, env.rules)
    case Failure(_) =>
    case Success(m) =>
      OverridesPhase(env.overrideOrder, m, d, o, env.rules);
      assert m.Keys == d.Keys;
  }

  /** The defaults loop over an enumeration of the defaults. */
  lemma DefaultsPhase<D>(order: seq<string>, d: map<string, D>, rules: DefineRules<D>)
    requires Enumerates(order, d.Keys)
    ensures DefaultsFold(order, d, rules).Success? <==> forall k :: k in d ==> rules.validateDefault(d[k])
    ensures DefaultsFold(order, d, rules).Success? ==>
      var m := DefaultsFold(order, d, rules).value;
      m.Keys == d.Keys && forall k :: k in m ==> m[k] == rules.defaultValue(d[k])
    ensures DefaultsFold(order, d, rules).Failure? ==>
      var e := DefaultsFold(order, d, rules).error;
      e.InvalidDefault? && e.key in d && !rules.validateDefault(d[e.key])
  {
    DefaultsFoldShape(order, d, rules);
    assert (forall k :: k in d ==> rules.validateDefault(d[k]))
       <==> forall i :: 0 <= i < |order| ==> rules.validateDefault(d[order[i]]);
  }

  /** The overrides loop over an enumeration of the overrides, starting
      from a map with the defaults' keys. */
  lemma OverridesPhase<D>(order: seq<string>, m: map<string, DefineValue>, d: map<string, D>,
                          o: map<string, DefineValue>, rules: DefineRules<D>)
    requires Enumerates(order, o.Keys)
    requires m.Keys == d.Keys && forall k :: k in m ==> m[k] == rules.defaultValue(d[k])
    ensures OverridesFold(order, m, d, o, rules).Success? <==> forall k :: k in d && k in o ==> rules.validate(d[k], o[k])
    ensures OverridesFold(order, m, d, o, rules).Success? ==>
      OverridesFold(order, m, d, o, rules).value == MergedDefines(d, o, rules)
    ensures OverridesFold(order, m, d, o, rules).Failure? ==>
      var e := OverridesFold(order, m, d, o, rules).error;
      e.InvalidOverride? && e.key in d && e.key in o && e.value == o[e.key] && !rules.validate(d[e.key], e.value)
  {
    OverridesFoldShape(order, m, d, o, rules);
    assert (forall k :: k in d && k in o ==> rules.validate(d[k], o[k]))
       <==> forall i :: 0 <= i < |order| && order[i] in o && order[i] in m
              ==> rules.validate(d[order[i]], o[order[i]]);
  }

  /** An override error names a key that has a default and an override,
      with the override's value, which that default rejects. */
  lemma OverrideRejected<D>(env: Environment<D>, configPath: Path, overridesPath: Path, root: Path,
                            config: RawConfig<D>, ov: OverridesConfig, key: string, value: DefineValue)
    requires env.readConfig(configPath) == Some(config)
    requires OverridesFromFile(env.readOverrides(overridesPath), config.configVersion) == Success(ov)
    requires Enumerates(env.defaultOrder, DefaultsOf(config).Keys)
    requires Enumerates(env.overrideOrder, OverridesOf(ov).Keys)
    requires Resolve(env, configPath, overridesPath, root) == Failure(InvalidOverride(key, value))
    ensures key in DefaultsOf(config) && key in OverridesOf(ov) && OverridesOf(ov)[key] == value
    ensures !env.rules.validate(DefaultsOf(config)[key], value)
  {
    DefinesShape(config, ov, env);
  }

  /** When the versions agree and pass the requirement and every default
      and override is valid, the merge succeeds with the merged defines. */
  lemma ResolveSucceeds<D>(env: Environment<D>, configPath: Path, overridesPath: Path, root: Path,
                           config: RawConfig<D>, ov: OverridesConfig)
    requires env.readConfig(configPath) == Some(config)
    requires OverridesFromFile(env.readOverrides(overridesPath), config.configVersion) == Success(ov)
    requires ov.configVersion == config.configVersion
    requires env.versionGate("^" + config.configVersion) == Some(true)
    requires Enumerates(env.defaultOrder, DefaultsOf(config).Keys)
    requires Enumerates(env.overrideOrder, OverridesOf(ov).Keys)
    requires forall k :: k in DefaultsOf(config) ==> env.rules.validateDefault(DefaultsOf(config)[k])
    requires forall k :: k in DefaultsOf(config) && k in OverridesOf(ov)
               ==> env.rules.validate(DefaultsOf(config)[k], OverridesOf(ov)[k])
    ensures Resolve(env, configPath, overridesPath, root)
         == Finish(config, ov, MergedDefines(DefaultsOf(config), OverridesOf(ov), env.rules), env, root)
  {
    DefinesShape(config, ov, env);
  }

  /** Without an overrides file the versions agree and the defines are the
      defaults. */
  lemma MissingOverridesFile<D>(env: Environment<D>, configPath: Path, overridesPath: Path, root: Path,
                                config: RawConfig<D>)
    requires env.readConfig(configPath) == Some(config)
    requires env.readOverrides(overridesPath) == NotFound
    requires env.versionGate("^" + config.configVersion) == Some(true)
    requires Enumerates(env.defaultOrder, DefaultsOf(config).Keys)
    requires forall k :: k in DefaultsOf(config) ==> env.rules.validateDefault(DefaultsOf(config)[k])
    ensures Resolve(env, configPath, overridesPath, root)
         == Finish(config, OverridesConfig(config.configVersion, None, None),
                   map k | k in DefaultsOf(config) :: env.rules.defaultValue(DefaultsOf(config)[k]), env, root)
  {
    var ov := OverridesConfig(config.configVersion, None, None);
    var d := DefaultsOf(config);
    DefaultsFoldShape(env.defaultOrder, d, env.rules);
    assert forall i :: 0 <= i < |env.defaultOrder| ==> env.rules.validateDefault(d[env.defaultOrder[i]]);
    var m := DefaultsFold(env.defaultOrder, d, env.rules).value;
    NoOverrides(env.overrideOrder, m, d, env.rules);
    assert m == map k | k in d :: env.rules.defaultValue(d[k]);
  }

  /** The defaults of the remaining fields: minify is `false` unless the
      config sets it, the templates see the computer name `unknown` when the
      overrides give none and the defines after overriding, the description
      template defaults to the one-line `DEFAULT_DESCRIPTION`, and the entry
      file defaults to the canonical `<root>/src/main.py`. */
  lemma FinishFields<D>(config: RawConfig<D>, ov: OverridesConfig, defines: map<string, DefineValue>,
                        env: Environment<D>, root: Path)
    requires Finish(config, ov, defines, env, root).Success?
    ensures var c := Finish(config, ov, defines, env, root).value;
      var ctx := TemplateContext(config, ov, defines, env);
      c.defines == defines && ctx.defines == defines && c.projectRoot == root && c.language == config.language
      && c.minify == (config.minify == Some(true)) && ctx.minify == c.minify
      && ctx.computerName == (if ov.computerName.Some? then ov.computerName.value else "unknown")
      && c.name == EvaluateTemplate(config.name, ctx)
      && c.description == EvaluateTemplate(DescriptionTemplate(config), ctx)
      && (config.description.None? ==> '\n' !in DescriptionTemplate(config))
      && (config.entryFile.None? ==>
            env.canonicalize(root + [Normal(Os("src")), Normal(Os("main.py"))]) == Some(c.entryFile))
  {
    var t := Text.ReplaceChar(DefaultDescription, '\n', ' ');
    assert forall i :: 0 <= i < |t| ==> t[i] != '\n';
  }

  /** A config named `{{computer-name}}-build` with the define `DEBUG`, and an
      overrides file naming the computer `rig1` and setting `DEBUG` to `true`,
      resolve to the name `rig1-build` and `DEBUG = true`. */
  lemma EndToEndExample<D>(env: Environment<D>, configPath: Path, overridesPath: Path, root: Path,
                           config: RawConfig<D>, debug: D)
    requires env.readConfig(configPath) == Some(config)
    requires config.name == "{{computer-name}}-build" && config.defaultDefines == Some(map["DEBUG" := debug])
    requires config.entryFile.None? && env.canonicalize(root + DefaultEntryFile).Some?
    requires env.readOverrides(overridesPath)
          == Opened(Some(OverridesConfig(config.configVersion, Some("rig1"), Some(map["DEBUG" := Boolean(true)]))))
    requires env.versionGate("^" + config.configVersion) == Some(true)
    requires env.rules.validateDefault(debug) && env.rules.validate(debug, Boolean(true))
    requires env.defaultOrder == ["DEBUG"] && env.overrideOrder == ["DEBUG"]
    ensures Resolve(env, configPath, overridesPath, root).Success?
    ensures Resolve(env, configPath, overridesPath, root).value.name == "rig1-build"
    ensures Resolve(env, configPath, overridesPath, root).value.defines == map["DEBUG" := Boolean(true)]
  {
    var ov := OverridesConfig(config.configVersion, Some("rig1"), Some(map["DEBUG" := Boolean(true)]));
    SingleKey("DEBUG", debug, Boolean(true), env.rules);
    ResolveSucceeds(env, configPath, overridesPath, root, config, ov);
    var merged := map["DEBUG" := Boolean(true)];
    var ctx := TemplateContext(config, ov, merged, env);
    assert ctx.computerName == "rig1";
    assert Finish(config, ov, merged, env, root).Success?;
    FinishFields(config, ov, merged, env, root);
    ComputerNameExample(config.name, ctx);
    assert EvaluateTemplate(config.name, ctx) == "rig1" + "-build";
    RigBuild();
  }

  lemma RigBuild()
    ensures "rig1" + "-build" == "rig1-build"
  {
  }

  /** One define with one override. */
  lemma SingleKey<D>(key: string, default: D, value: DefineValue, rules: DefineRules<D>)
    ensures Enumerates([key], map[key := default].Keys) && Enumerates([key], map[key := value].Keys)
    ensures MergedDefines(map[key := default], map[key := value], rules) == map[key := value]
  {
  }
}
