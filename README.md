# vexmason: the argument and configuration pipeline, in Dafny

vexmason wraps the VEX `vexcom` uploader so that Python projects can be
compiled first. Before `vexcom` runs, the project is found and its
configuration resolved. The Python transformer is then invoked, and the
upload arguments are patched with the build output, the resolved name and
the resolved description. This project models that pipeline and proves
what each step promises.

The modules follow the repository's files:

- `ModifyArgs` (`src/modify_args.rs`):
  - `modify_args` rewrites an `array<string>` in place. The slot after
    `--write`, `--name` or `--description` is replaced. Flags are judged
    by the original arguments.
  - `has_write` and `entry_point` are scans over the same arguments.
- `Template` (`src/config/template.rs`): `evaluate_template`.
  - The regex `\{\{\s*(.*?)\s*\}\}` is replaced by an explicit scanner.
    That scanner is proved to find the regex's leftmost-first match.
  - The `defines::list` loop is a method.
- `Config` (`src/config.rs`):
  - The upward project-root walk, over an abstract file system. It is
    corrected; see Findings.
  - The overrides-file load.
  - `resolved_config_from_files`. Its two define loops fill the map in
    place.
  - `resolved_config_from_root`.
- `ConfigModel` (`src/config/model.rs`): define values, their
  stringification, and the configuration records with
  `ResolvedConfig::build_output`.
- `CompileFile` (`src/compile_file.rs`):
  - The argument vector of the Python transformer, built by pushes and a
    loop over the defines.
  - The library directory.
  - The classification of the child's exit status and JSON output.
- `InstallationLocation` (`src/installation_location.rs`): the user and
  installation directories, from an environment variable or from the
  component sequence of a reference path.
- `CheckVersions` (`src/checkversions.rs`): version extraction from
  `--version` output, the error mapping, the order of the Python and git
  checks, and the `VersionError` messages.

Support modules:

- `Wrappers`: `Option` and `Result`.
- `Sequences`: distinctness, enumerations of a key set, map and concat,
  and permutation lemmas.
- `Text`: Unicode white space, `trim`, `split`, `join`, `strip_prefix` and
  decimal formatting.
- `Encoding`: UTF-8, and base64 as in section 4 of RFC 4648, with both
  round trips.
- `Paths`: Windows paths as component sequences. Their OS strings may hold
  unpaired surrogates, so `to_str` can fail.

I/O becomes inputs:

- File contents and `is_file`/`is_dir` become a `FileSystem` value and
  read functions.
- Environment variables become `Option<Path>` arguments.
- `dunce::canonicalize` becomes a function argument.
- A spawned tool's outcome becomes a `Spawn` value.
- The child's streams are parsed JSON or the error that reading them gave.
- The clock readings become a `Clock` value.
- semver parsing and matching become function-valued inputs.
- The platform that `cfg!` selects becomes a `Platform` value.
- The iteration order of every `HashMap` becomes an explicit sequence that
  enumerates its keys. Every order-dependent result is also stated up to
  permutation.

`src/config/model.rs` does not match how `src/config.rs` uses it:

- `config.rs` calls `validate_default`, `validate` and `entry_file`, which
  `model.rs` does not declare.
- `config.rs` uses the version as a string.

The model follows `config.rs`:

- The declared form of a define is a type parameter.
- Its two validations and its value are the `DefineRules` functions.
- The version is text.
- The entry file is an optional path.

## Model

| member | source | states |
|---|---|---|
| ModifyArgs.ModifyArgs | src/modify_args.rs:13-35 | Succeeds exactly when the path has a UTF-8 form or no `--write` occurs before the last argument. On success the array is the original with every flag's following slot rewritten from the snapshot. On failure the error is the UTF-8 message, and the slots before the first `--write` are already rewritten. |
| ModifyArgs.Visited | src/modify_args.rs:14 | `take(args.len() - 1)` visits all but the last argument, and none of an empty vector, where the subtraction wraps in a release build. |
| ModifyArgs.SlotValue | src/modify_args.rs:17-31 | Definition without a contract of its own: the new text of the slot after one argument. `SlotValues` states its values. |
| ModifyArgs.Rewritten | src/modify_args.rs:14-32 | The rewritten arguments keep the original length. The slot after each flag below `n` takes that flag's slot value. `RewrittenStep` and `RewrittenFrame` state what changes. |
| ModifyArgs.RewrittenStep | src/modify_args.rs:16-31 | Acting on the flag at `i` changes at most slot `i + 1`, and only when `args[i]` is one of the three flags. |
| ModifyArgs.RewrittenFrame | src/modify_args.rs:14-32 | The length and the first argument never change. A slot that changes follows one of the three flags in the original arguments, below the last position. |
| ModifyArgs.SlotValues | src/modify_args.rs:18-30 | The `--write` slot is the output path's text. The `--name` slot is the name. The `--description` slot is base64 that decodes to the description's UTF-8 bytes, which decode back to the description. |
| ModifyArgs.SnapshotExample | src/modify_args.rs:14-17 | `--write --name x` rewrites both the second and the third argument, although the second was itself a flag. |
| ModifyArgs.HasWrite | src/modify_args.rs:37-44 | True iff some argument, the last included, is `--write`. |
| ModifyArgs.FirstWrite | src/modify_args.rs:47-52 | The first `--write` position at or after `i` and below the last, or none such. |
| ModifyArgs.EntryPoint | src/modify_args.rs:46-54 | `Some` iff `--write` occurs below the last position. The value is the argument after the first such `--write`. |
| ModifyArgs.EntryPointAndHasWrite | src/modify_args.rs:37-54 | An entry point implies `has_write`. `has_write` without an entry point means `--write` is only the last argument. |
| ModifyArgs.TrailingWriteExample | src/modify_args.rs:37-54 | `a --write` has `has_write` but no entry point. |
| Encoding.Base64RoundTrip | src/modify_args.rs:29 | Base64 decoding inverts the standard padded encoding for every byte sequence. |
| Encoding.Base64Length | src/modify_args.rs:29 | The encoding takes four characters for each started group of three bytes. |
| Encoding.Utf8RoundTrip | src/modify_args.rs:29 | UTF-8 decoding inverts UTF-8 encoding for every string. |
| Encoding.AlphabetValueOfChar | src/modify_args.rs:29 | The RFC 4648 table read back gives the 6-bit value. |
| Paths.ToStr | src/modify_args.rs:19-22 | `Some(t)` when `t` is the path's OS string. `None` only when that string holds an unpaired surrogate. |
| Paths.OsToStrOfText | src/modify_args.rs:21 | The OS string of a Rust string converts back to it. |
| Paths.Parent | src/config.rs:43 | No parent at a prefix, a root or the empty path. Otherwise the path without its last component. |
| Paths.Pop | src/compile_file.rs:20-21 | Truncates to the parent, and leaves a path without one unchanged. |
| Paths.PopJoinName | src/compile_file.rs:20-22 | Popping undoes pushing one name. |
| Paths.Join | src/config.rs:151 | A relative path is appended, and a path with a prefix replaces the base. |
| Template.SkipWhite | src/config/template.rs:11 | The end of the longest white-space run from a position. |
| Template.RunEnd | src/config/template.rs:11 | A white-space run ending before a non-white-space character is the longest one. |
| Template.FindClose | src/config/template.rs:11 | The shortest content end that white space and `}}` follow, with no line break before it; `None` when there is none. |
| Template.MatchPrefix | src/config/template.rs:11 | A match of the regex at the start, with the leftmost content start and the shortest content. |
| Template.MinimalContent | src/config/template.rs:11 | No regex match from the same content start has shorter content. |
| Template.NoMatchIsComplete | src/config/template.rs:11 | When the scanner finds no token, the regex has no match at that position. |
| Template.MatchWitness | src/config/template.rs:11 | Every regex match at the start makes the scanner find a token. |
| Template.RegexMatchAt | src/config/template.rs:11 | Definition without a contract of its own: the reference reading of the regex at one position. `MatchPrefix`, `MinimalContent`, `NoMatchIsComplete` and `MatchWitness` tie the scanner to it. |
| Template.NameValue | src/config/template.rs:23-54 | Definition without a contract of its own: the value of each fixed match arm. The `…Token` lemmas state them through `EvaluateTemplate`. |
| Template.Substitute | src/config/template.rs:22-64 | Definition without a contract of its own: a fixed name gives its value, and `defines/<key>` with a known key gives the define's text. Anything else gives the whole match. `SubstituteSpacing`, `UnknownKept` and `DefineToken` state it. |
| Template.Evaluate | src/config/template.rs:21-66 | Definition without a contract of its own: `replace_all` as a left-to-right scan that resumes after each match. `ExpandToken`, `EvaluateSkip`, `LiteralPrefix` and `NoTokenIdentity` state its behaviour. |
| Template.EvaluateTemplate | src/config/template.rs:14-67 | Definition without a contract of its own: `evaluate_template` is the scan over the values of its arguments. Its tokens are stated by the `…Token` lemmas and `ComputerNameExample`. |
| Template.ValuesOf | src/config/template.rs:22-54 | The fixed names are exactly the fourteen the match recognises, and the defines are the resolved ones. |
| Template.ScanContent | src/config/template.rs:11 | Content without `}` or a line break, not ending in white space, closes exactly where its braces are. |
| Template.ExpandToken | src/config/template.rs:21-64 | A token at the start is replaced by the value of its trimmed content, and scanning resumes after it. The replacement is never scanned again. |
| Template.EvaluateSkip | src/config/template.rs:21 | A character that starts no token is copied. |
| Template.LiteralPrefix | src/config/template.rs:21 | Text without `{` is copied in order and unchanged. |
| Template.NoTokenIdentity | src/config/template.rs:21 | A template in which `{{` never occurs is returned unchanged. |
| Template.SubstituteSpacing | src/config/template.rs:55-63 | A recognised content's value does not depend on the matched text. An unrecognised one gives the whole match. |
| Template.SpacingIrrelevant | src/config/template.rs:11 | `{{c}}` and `{{  c  }}` expand alike for recognised contents. |
| Template.UnknownKept | src/config/template.rs:55-63 | An unknown token is copied verbatim, spacing included. |
| Template.DefineToken | src/config/template.rs:56-60 | `{{defines/k}}` gives the stringified value of an existing define, and stays as written for a missing one. |
| Template.CountToken | src/config/template.rs:54 | `{{defines::count}}` gives the decimal number of defines. |
| Template.LanguageToken | src/config/template.rs:25 | `{{language}}` gives the language verbatim. |
| Template.LanguageShortToken | src/config/template.rs:26-31 | `{{language::short}}` gives `py`, `cpp` or `?`. |
| Template.MinifyToken | src/config/template.rs:33 | `{{minify}}` gives `true` or `false`. |
| Template.MinifyShortToken | src/config/template.rs:34 | `{{minify::short}}` gives `y` or `n`. |
| Template.ComputerNameToken | src/config/template.rs:23 | `{{computer-name}}` gives the computer name. |
| Template.ComputerNameExample | src/config/template.rs:23 | `{{computer-name}}-build` gives the name followed by `-build`. |
| Template.NestedOpenExample | src/config/template.rs:62 | `{{ a {{ b }}` is one unknown match, so it is returned unchanged. |
| Template.NamesShape | src/config/template.rs:22-54 | No fixed name is of the form `defines/<key>`. |
| Template.DefinesList | src/config/template.rs:44-53 | The loop's text is the `k=v, ` entries in the map's iteration order. |
| Template.ListTextAppend | src/config/template.rs:47-50 | One more key appends its `k=v, `. |
| Template.ListEntries | src/config/template.rs:44-53 | One entry per define. Two iteration orders give the same entries up to order. |
| Template.EntryShape | src/config/template.rs:47-50 | A define's entry is `key=value, `. |
| ConfigModel.Stringify | src/config/model.rs:12-20 | `String(s)` gives `s`, `Boolean` gives `true`/`false`, and a number gives its shown text. |
| ConfigModel.Display | src/config/model.rs:22-26 | `Display` is the `Into<String>` text. |
| ConfigModel.StringifyInjectiveWithinVariant | src/config/model.rs:12-20 | Values of one variant that render alike are equal. |
| ConfigModel.ResolvedConfig.BuildOutput | src/config/model.rs:61-63 | `project_root/build/compiled.py`. |
| ConfigModel.BuildOutputUnderRoot | src/config/model.rs:61-63 | Popping twice gives the project root. The path depends on nothing else. |
| Config.Marker | src/config.rs:36-39 | `dir/.vscode/<file>`. |
| Config.WalkStart | src/config.rs:30-33 | The entry's parent when the entry is a file, else the entry. |
| Config.FindRoot | src/config.rs:34-44 | A found root is an existing project directory and a prefix of the start. A start that is not an existing directory gives `None`. |
| Config.WrittenStep | src/config.rs:34-44 | Definition without a contract of its own: one turn of the loop as written, where `pop` is a no-op at the top. `WrittenWalkNeverEnds` states its consequence. |
| Config.WrittenRun | src/config.rs:34-44 | Definition without a contract of its own: the state after `n` turns of the loop as written. `RunFrom`, `WrittenWalkNeverEnds` and `WrittenWalkExample` state it. |
| Config.FindRootSound | src/config.rs:34-44 | A found root is an ancestor holding both markers. Every deeper ancestor was an existing directory without them. |
| Config.FindRootComplete | src/config.rs:34-44 | If the walk reaches a project directory, it finds one at least that deep. |
| Config.Root | src/config.rs:29-46 | The corrected loop gives the walk from `WalkStart`. |
| Config.WrittenWalkNeverEnds | src/config.rs:34-44 | As written, the loop never returns at an existing top directory without the markers. |
| Config.WrittenWalkExample | src/config.rs:34-44 | From `C:\work` on a disk without a project, the written loop stays at `C:\`, while the corrected walk returns `None`. |
| Config.OverridesFromFile | src/config.rs:184-203 | A missing file gives overrides carrying the config version and nothing else. A parsed file gives its content. Other errors are passed on. |
| Config.DefaultsFold | src/config.rs:85-92 | The defaults loop maps only visited keys of the defaults. Its only failure is `InvalidDefault` on a visited default. |
| Config.OverridesFold | src/config.rs:93-117 | The overrides loop keeps the key set of the map it starts from. Its only failure is `InvalidOverride` on a visited override. |
| Config.DefaultsFoldShape | src/config.rs:87-92 | The defaults loop fails iff a visited default fails its own validation, and it then names that key. Otherwise it maps each visited key to its default's value. |
| Config.OverridesFoldShape | src/config.rs:93-117 | The overrides loop keeps the key set and replaces exactly the visited overridden keys that have a default. It fails iff one of those values is rejected, and names that key and value. |
| Config.DefaultsFailureSticks | src/config.rs:88-90 | A failure in the defaults loop is the result. |
| Config.OverridesFailureSticks | src/config.rs:103-108 | A failure in the overrides loop is the result. |
| Config.NoOverrides | src/config.rs:93 | Without overrides the second loop changes nothing. |
| Config.DefaultsLoop | src/config.rs:86-92 | The in-place loop gives the defaults fold. |
| Config.OverridesLoop | src/config.rs:93-117 | The in-place loop gives the overrides fold. |
| Config.Finish | src/config.rs:119-162 | Definition without a contract of its own: the templates, minify, the entry file and the result record. `FinishFields` states its fields. |
| Config.Resolve | src/config.rs:48-163 | Definition without a contract of its own: `resolved_config_from_files` as a value. `VersionMismatchFirst`, `InvalidDefaultFails`, `OverrideRejected`, `ResolveSucceeds`, `MissingOverridesFile`, `ResolvedDefinesShape` and `EndToEndExample` state it. |
| Config.ResolvedConfigFromFiles | src/config.rs:48-163 | The method gives `Resolve`: the read errors, the version check, the requirement gate, the two loops and the finishing step, in the source's order. |
| Config.ConfigPath | src/config.rs:165-168 | `<root>/.vscode/vexmason-config.json`. |
| Config.OverridesPath | src/config.rs:165-169 | `<root>/.vscode/vexmason-local-config.json`. |
| Config.ResolvedConfigFromRoot | src/config.rs:165-173 | Resolution from the two files under `<root>/.vscode`, with the root as project root. |
| Config.VersionMismatchFirst | src/config.rs:72-74 | Different versions fail, whatever the define rules and orders. |
| Config.InvalidDefaultFails | src/config.rs:87-90 | An invalid default makes resolution fail, never on an override and never with a result. |
| Config.DefinesShape | src/config.rs:85-117 | The merge succeeds iff every default and every applied override is valid. It then gives each default, replaced by its override where there is one. A failure names an offending key. |
| Config.DefaultsPhase | src/config.rs:85-92 | The defaults loop over an enumeration of the defaults, stated on the key set. |
| Config.OverridesPhase | src/config.rs:93-117 | The overrides loop over an enumeration of the overrides, stated on the key set. |
| Config.ResolvedDefinesShape | src/config.rs:85-117 | A resolved config has exactly the default keys, with each override applied. |
| Config.OverrideRejected | src/config.rs:96-108 | An override error names a key with a default and an override, that override's value, and a default that rejects it. |
| Config.ResolveSucceeds | src/config.rs:72-117 | Matching versions, a passing requirement and valid defines resolve to the merged defines. |
| Config.MissingOverridesFile | src/config.rs:196-200 | Without an overrides file the versions agree, and the defines are the defaults. |
| Config.FinishFields | src/config.rs:119-152 | Covers the remaining fields: <br>• The computer name defaults to `unknown`. <br>• `minify` defaults to `false`. <br>• The templates see the defines after overriding. <br>• The default description has no line break. <br>• The entry file defaults to the canonical `<root>/src/main.py`. |
| Config.EndToEndExample | src/config.rs:48-163 | A config `{{computer-name}}-build` with a `DEBUG` define, and overrides naming `rig1` with `DEBUG = true`, give the name `rig1-build` and `DEBUG = true`. |
| CompileFile.CompileArgs | src/compile_file.rs:24-50 | Definition without a contract of its own: the head, the define block and the output arguments. `ArgsLayout`, `ArgsDefines`, `ArgsTail` and `ArgsPermute` state its layout. |
| CompileFile.HeadArgs | src/compile_file.rs:25-40 | The first eleven arguments. |
| CompileFile.PushDefines | src/compile_file.rs:41-46 | The loop appends the define block in iteration order. |
| CompileFile.BuildArgs | src/compile_file.rs:24-50 | The assembled vector is the head, the define block and the optional output. |
| CompileFile.DefineArgsStep | src/compile_file.rs:43-45 | One more key appends its `--define-constant` triple. |
| CompileFile.DefineLayout | src/compile_file.rs:41-46 | The define block has one contiguous triple per key, in order. |
| CompileFile.DefineAt | src/compile_file.rs:41-46 | The triple of key `k` sits at `3k`. |
| CompileFile.HeadLayout | src/compile_file.rs:25-40 | `-m python-compiler --input`, the input path, then the seven fixed tokens. |
| CompileFile.ArgsDefines | src/compile_file.rs:41-46 | The triple of key `k` sits at `11 + 3k` of the vector. |
| CompileFile.ArgsLayout | src/compile_file.rs:24-50 | The length is `11 + 3·|defines|`, plus 2 with an output. The head comes first, then one triple per define, and `--output <path>` last exactly when an output is given. |
| CompileFile.ArgsTail | src/compile_file.rs:47-50 | After the define block come exactly the output arguments. |
| CompileFile.ArgsPermute | src/compile_file.rs:41-46 | Two iteration orders give vectors that agree outside the define block. Their triples are permutations of each other. |
| CompileFile.LibDir | src/compile_file.rs:19-22 | Definition without a contract of its own: pops twice, then joins `lib`. `LibDirSibling` states the result. |
| CompileFile.LibDirSibling | src/compile_file.rs:19-22 | For `<dir>/bin/<exe>` the library directory is `<dir>/lib`. |
| CompileFile.Get | src/compile_file.rs:86 | A field exists iff the value is an object holding the key. |
| CompileFile.Classify | src/compile_file.rs:80-106 | <br>• A successful exit with an output file gives `None`. <br>• Without an output file it gives stdout's string `output`, the read error, or the "failed to read output" failure. <br>• A failed exit always errors. |
| CompileFile.ClassifyIgnoresStreams | src/compile_file.rs:80-96 | With an output file no stream is read. A failed exit never reads stdout. |
| CompileFile.FailedExit | src/compile_file.rs:95-106 | A failed exit gives one of three errors: <br>• `transform failed (name): msg` for string fields `name` and `msg`; <br>• otherwise the generic message; <br>• the stream's error when stderr cannot be read or parsed. |
| CompileFile.TransformMessages | src/compile_file.rs:90-105 | Every transform failure starts with `transform failed`. |
| CompileFile.InlineOutput | src/compile_file.rs:86-88 | The inline result is `text` exactly when stdout's `output` field is that string. |
| InstallationLocation.FirstRoot | src/installation_location.rs:36-41 | The position of the first `RootDir` component. None when there is no root. |
| InstallationLocation.UserDirOf | src/installation_location.rs:35-54 | Fails as relative without a root. Succeeds iff the path is long enough and `Users` follows the root, giving the first root+3 components. |
| InstallationLocation.Fallback | src/installation_location.rs:33-56 | Definition without a contract of its own: the missing-variable error without a reference path, otherwise the canonicalisation error or `UserDirOf` of the canonical path. `FallbackShape` and `FallbackErrors` state it. |
| InstallationLocation.LocalAppData | src/installation_location.rs:30-56 | Definition without a contract of its own: `LOCALAPPDATA` as it is, otherwise the fallback user directory joined with `AppData\Local`. `VariableUsedAsIs` and `InstallationFollowsUserDirectory` state it. |
| InstallationLocation.UserDirectory | src/installation_location.rs:72-109 | On Linux the result is `~`; any other non-Windows platform is unsupported. |
| InstallationLocation.InstallationPath | src/installation_location.rs:28-70 | An unsupported platform is an error. |
| InstallationLocation.VariableUsedAsIs | src/installation_location.rs:30-31 | A set variable is used as it is, and the reference path is ignored. |
| InstallationLocation.MissingWithoutReference | src/installation_location.rs:57-61 | A missing variable with no reference path is an error that names `USERPROFILE` or `LOCALAPPDATA`. |
| InstallationLocation.FallbackShape | src/installation_location.rs:52-54 | The user directory is a prefix of the path: the part before the first root, the root, `Users`, and one more component. |
| InstallationLocation.FallbackErrors | src/installation_location.rs:42-51 | A short path is "not long enough". A long path without `Users` after the root is a system path. |
| InstallationLocation.InstallationEndsInDirectory | src/installation_location.rs:64-66 | Every installation path ends in `vexmason`. On Linux it is `~/.local/bin/vexmason`. |
| InstallationLocation.InstallationFollowsUserDirectory | src/installation_location.rs:33-56 | Without the variables, the installation path is the fallback user directory plus `AppData\Local\vexmason`, or the same error. |
| CheckVersions.TakeThree | src/checkversions.rs:85 | The first three pieces, or all of them when there are fewer. |
| CheckVersions.ExtractVersion | src/checkversions.rs:80-87 | A version exists iff the output starts with the prefix. |
| CheckVersions.VersionBeforeThirdDot | src/checkversions.rs:83-87 | For every output with the prefix, the version is exactly the trimmed remainder up to its third dot. It is a prefix of that remainder, holds `min(dots, 2)` of its dots, and is followed by the end of the remainder or a dot. |
| CheckVersions.AtMostTwoDots | src/checkversions.rs:84-87 | The version never has more than two dots. |
| CheckVersions.ShortVersionKept | src/checkversions.rs:84-87 | A remainder with at most three pieces is the version itself. |
| CheckVersions.VersionIsPrefix | src/checkversions.rs:83-87 | The version is a prefix of the trimmed remainder. |
| CheckVersions.GitExample | src/checkversions.rs:80-87 | `git version 2.41.0.windows.1` followed by a newline gives `2.41.0`. |
| CheckVersions.Version | src/checkversions.rs:90-96 | A spawn error of kind NotFound names the program. Any other spawn error is an I/O error. |
| CheckVersions.CheckVersion | src/checkversions.rs:50-63 | Definition without a contract of its own: the version, then parse, then match. `CheckVersionOutcome` states its outcome. |
| CheckVersions.Display | src/checkversions.rs:22-42 | Definition without a contract of its own: the message of each error. `BadVersionMessage` states the `BadVersion` text. |
| CheckVersions.CheckVersionOutcome | src/checkversions.rs:54-62 | A parsed version passes iff the requirement matches it. Otherwise it is `BadVersion` with the program, version and requirement. |
| CheckVersions.MissingPrefix | src/checkversions.rs:81-82 | Output without the prefix is a parse failure. |
| CheckVersions.BadVersionMessage | src/checkversions.rs:35-39 | `"{prog} {version} doesn't satisfy required version {req}"`. |
| CheckVersions.CheckVersionsAll | src/checkversions.rs:44-48 | A Python failure is the result; otherwise the git check is. |
| CheckVersions.PythonFirst | src/checkversions.rs:44-48 | With both tools missing only Python is reported. |
| Text.Trim | src/checkversions.rs:83 | Cuts only white space from both ends. The result's ends are not white space, and all-white-space text becomes empty. |
| Text.StripPrefix | src/checkversions.rs:81 | `Some` iff the prefix starts the text, and the text is the prefix followed by the rest. |
| Text.JoinAt | src/checkversions.rs:87 | A join splits at any inner piece boundary into the join before it, the separator, and the join after it. |
| Text.JoinSplit | src/checkversions.rs:84-87 | Joining the pieces of a split with the same character gives the text back. |
| Text.SplitPiecesFree | src/checkversions.rs:84 | No piece holds the separator. |
| Text.SplitLength | src/checkversions.rs:84 | A split gives one more piece than the separator count. |
| Text.CountJoin | src/checkversions.rs:87 | Joining `n` separator-free pieces adds `n - 1` separators. |
| Text.ReplaceChar | src/config.rs:142 | Every `\n` becomes a space and every other character stays. |
| Text.NatToStringRoundTrip | src/config/template.rs:54 | The decimal text of a number reads back as that number. |
| Text.NatToStringInjective | src/config/template.rs:54 | Different numbers have different decimal texts. |
| Sequences.EnumerationsPermute | src/compile_file.rs:41 | Two iteration orders of one key set are permutations of each other. |
| Sequences.EnumerationSize | src/config/template.rs:54 | An iteration order is as long as the map. |

## Left out

- I/O and processes:
  - Spawning, waiting, reading streams, `current_exe`, `env::var`, file
    reads, `is_file`/`is_dir` and `dunce::canonicalize` are inputs.
  - How `compile_file` fails before the child exits is not modelled. This
    covers `current_exe`, the canonicalisation of the input and the library
    directory, and the spawn and wait errors. Those are plain `?`
    propagations.
- The `AppData` environment injection for the child on Windows is a side
  effect on the child process.
- Logging (`info!`, `warn!`, `error!`, `debug!`) has no effect on results
  and is omitted.
- The clock:
  - The `time` tokens take their readings from one `Clock` value. The
    source reads the local clock anew for each token.
  - The chrono formats `%a %d %b %Y, %I:%M%p` and `%+` are inputs.
- The text Rust gives an `f32` define (`Number`) is kept as that text.
  Float formatting is not modelled.
- The regex engine is replaced by the scanner. Its agreement with the
  pattern is proved only for matches at the scan position.
- semver parsing, the caret requirement and matching are function inputs.
  The requirement's text is kept as written, for example `^3.10`.
- serde JSON parsing:
  - Files arrive parsed, or as the fact that reading or parsing them
    failed.
  - The JSON the child writes arrives as a `Json` value or as the error
    message.
  - anyhow's context texts are reduced to `ConfigError` variants.
- Path strings are not parsed. An environment variable's value, `entry_file`
  and `~/.local/bin` arrive as component sequences. `entry_point` keeps the
  argument's text rather than a `Path`.
- On macOS `cfg!` reaches the unsupported-OS error. The model has one
  `OtherOs` case for every platform other than Windows and Linux.
- ModifyArgs.ModifyArgs: on an empty argument vector, follows a release
  build. The two build profiles differ there:
  - In a release build `args.len() - 1` wraps to `usize::MAX`, so `take`
    visits nothing. `modify_args` then returns `Ok(())`, and `entry_point`
    returns `None`. The model does the same (`ModifyArgs.Visited`,
    `ModifyArgs.EntryPoint`).
  - A debug build panics on the overflow. That panic is not modelled.
- Paths.ToStr: states the `None` direction one way only. A lone surrogate
  in the path's text makes it fail, and no other failure is possible.
- The iteration order of every `HashMap` is an input that enumerates its
  keys. Results that depend on it are also proved up to permutation:
  - `defines::list`;
  - the `--define-constant` triples;
  - the order in which the two define loops visit keys.
- The `config_version` of `ResolvedConfig` (a `usize` in `model.rs`) is not
  a field of the model's resolved config. `config.rs` does not set it.
- InstallationLocation.UserDirectory: keeps the source's text: the missing
  `USERPROFILE` error still says "installation path".

## Findings

| source | as written | input that shows it | evidently intended | confidence | as-written member | corrected member |
|---|---|---|---|---|---|---|
| src/config.rs:34-44 | `buf.pop()` leaves a path with no parent unchanged, so the loop runs forever once it reaches an existing top directory without the markers | entry `C:\work` on a disk with no project: the walk reaches `C:\` and stays there | return `None` once no parent remains | not executed | Config.WrittenWalkNeverEnds | Config.Root |
