/** The configuration data model: define values, the parsed base and
    override configuration files, and the resolved configuration with
    its derived build-output path. */
module ConfigModel {
  import opened Wrappers
  import opened Paths

  /** `ConfigDefineType`, an untagged JSON value. The `f32` of the
      `Number` variant is kept as the text Rust's `to_string` gives it;
      float formatting is not modelled. */
  datatype DefineValue = Str(s: string) | Number(shown: string) | Boolean(b: bool)

  /** `Into<String>` for a define value. */
  function Stringify(v: DefineValue): (r: string)
    ensures v.Str? ==> r == v.s
    ensures v.Boolean? ==> r == (if v.b then "true" else "false")
    ensures v.Number? ==> r == v.shown
  {
    match v
    case Boolean(b) => if b then "true" else "false"
    case Number(shown) => shown
    case Str(s) => s
  }

  /** `Display` for a define value, written through `Into<String>`. */
  function Display(v: DefineValue): (r: string)
    ensures r == Stringify(v)
  {
    var s := Stringify(v);
    s
  }

  /** Two values of the same variant that render alike are equal: the
      stringification loses only the variant. */
  lemma StringifyInjectiveWithinVariant(v: DefineValue, w: DefineValue)
    requires (v.Str? && w.Str?) || (v.Boolean? && w.Boolean?) || (v.Number? && w.Number?)
    requires Stringify(v) == Stringify(w)
    ensures v == w
  {
    if v.Boolean? {
      assert Stringify(v)[0] == (if v.b then 't' else 'f');
    }
  }

  /** The project configuration file, `vexmason-config.json`, as parsed.
      `D` is the declared form of a define; its validation rules are
      outside this model (see `DefineRules`). */
  datatype RawConfig<D> = RawConfig(
    configVersion: string,
    name: string,
    description: Option<string>,
    language: string,
    minify: Option<bool>,
    defaultDefines: Option<map<string, D>>,
    entryFile: Option<Path>)

  /** The machine-local overrides file, `vexmason-local-config.json`, as parsed. */
  datatype OverridesConfig = OverridesConfig(
    configVersion: string,
    computerName: Option<string>,
    definesOverrides: Option<map<string, DefineValue>>)

  /** What the resolver needs to know about a declared define: whether its
      default passes its own validation, whether it admits an override
      value, and the value it stands for. */
  datatype DefineRules<!D> = DefineRules(
    validateDefault: D -> bool,
    validate: (D, DefineValue) -> bool,
    defaultValue: D -> DefineValue)

  /** The merged configuration of one invocation, as `config.rs` builds
      it (without the version field of `model.rs`). */
  datatype ResolvedConfig = ResolvedConfig(
    name: string,
    description: string,
    language: string,
    defines: map<string, DefineValue>,
    projectRoot: Path,
    minify: bool,
    entryFile: Path)
  {
    /** `project_root/build/compiled.py`. */
    function BuildOutput(): (p: Path)
      ensures p == projectRoot + [Normal(Os("build")), Normal(Os("compiled.py"))]
    {
      Join(Join(projectRoot, Name("build")), Name("compiled.py"))
    }
  }

  /** The build output lies two levels below the project root and depends
      on nothing else. */
  lemma BuildOutputUnderRoot(c: ResolvedConfig, d: ResolvedConfig)
    ensures Pop(Pop(c.BuildOutput())) == c.projectRoot
    ensures c.projectRoot == d.projectRoot ==> c.BuildOutput() == d.BuildOutput()
  {
    PopJoinName(Join(c.projectRoot, Name("build")), "compiled.py");
    PopJoinName(c.projectRoot, "build");
  }
}
