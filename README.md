# yinc include processor — a verified model

This project models the include engine of `yinc`. The engine is a YAML preprocessor that replaces every value tagged `!include` (the configured include tag) with the document that the tag's payload names. The modelled pieces are:

- **The tree walk.** `IncludeProcessor::process_value` walks the tree in three steps:
  - for a mapping, it scans every value for an include directive and resolves each one into a list of updates;
  - it applies the updates with `Mapping::insert`;
  - it walks every child, including the substituted ones, which makes resolution transitive.

  A sequence is walked element by element. Every other node is a leaf, including a tagged node. `process_file` walks the root document from the root file's parent directory, or `.` if it has none, and that one directory is used at every depth.
- **Extraction and dispatch.**
  - `extract_include_directive` takes a node tagged with the include tag whose inner value is a string.
  - `resolve_include` routes a payload in a fixed order: a `$(…)` special form, then an `http://`/`https://` URL, then a payload containing `*` (a glob), then a plain file.
  - `resolve_special_directive` splits `$(shell X)` and `$(json X)` and rejects any other special form.
- **The back ends.** File, JSON, HTTP, glob and shell resolution are modelled down to their control flow: which foreign call comes first, which branch is taken, which error is returned. The foreign calls themselves (filesystem, codecs, HTTP client, `sh -c`) are the fields of an `Env` value.
- **The stand-alone helpers.** `Directive::parse`, plus `Resolver::is_url`, `is_glob_pattern`, `is_json_file` and `resolve_path`. The processor does not call them. The model keeps them as written and proves how they relate to the processor's own tests.
- **Errors and configuration.** The error type `YincError`, with its `Display` prefixes and its `From` conversions, and `Config` with its defaults.

The walk is written twice:
- as specification functions (`Processor.Scan`, `Apply`, `Walk`, `WalkEntries`, `WalkItems`) that follow the source step by step. They take the resolutions at one base directory as a single function from payload to result (`Processor.ResolveAt(env, baseDir)`) and pass it down unchanged, just as `process_value` passes its one `base_dir` to every recursive call and every `resolve_include`;
- as imperative methods with the source's loops (`Processor.ProcessValue` and the loop methods it calls, `ResolveInclude`, `ResolveGlobInclude`). Each method's postcondition states that it computes exactly the function. The properties of the walk are then proved as lemmas about the functions in `WalkProps`.

The source does not terminate on a cyclic include. In the model, every descent into a mapping or a sequence costs one unit of `fuel`, and running out gives `OutOfFuel`. The source has no such outcome. `OutOfFuel` means only that the walk did not finish within the given fuel; more fuel never changes a `Done` or `Failed` result (`WalkProps.WalkMonotone`), and fuel equal to the document's nesting depth suffices for a document without directives (`WalkProps.WalkSettledIdentity`).

Two behaviours of the processor differ from what the stand-alone helpers suggest. The model follows the processor's code for both:
- **Glob routing.** The processor sends a payload to glob only if it contains `*` (`src/include/processor.rs:88`). `Resolver::is_glob_pattern` also accepts `?` and `[`. A payload whose only metacharacters are `?` or `[` is therefore read as a plain file.
- **Missing files.** A file include reads `base_dir.join(path)` directly (`src/include/processor.rs:138-140`). A missing file therefore fails with an `Io` error, not with the `Include("File not found: …")` error of `Resolver::resolve_path`.

A glob entry that cannot be read becomes `Include(message)` (`src/include/processor.rs:127`).

Module layout:

| file | module | source |
|---|---|---|
| `common.dfy` | `Common` | string helpers |
| `errors.dfy` | `Errors` | `src/error/mod.rs` |
| `config.dfy` | `Lib` | `src/lib.rs` |
| `yaml_value.dfy` | `YamlValue` | `serde_yaml::Value` |
| `io.dfy` | `Io` | the foreign calls |
| `directive.dfy` | `Directives` | `src/include/directive.rs` |
| `resolver.dfy` | `Resolver` | `src/include/resolver.rs` |
| `processor.dfy` | `Processor` | `src/include/processor.rs` |
| `dispatch_props.dfy` | `DispatchProps` | properties of dispatch and the back ends |
| `walk_props.dfy` | `WalkProps` | properties of the walk |

## Model

| member | source | states |
|---|---|---|
| Errors.Display | src/error/mod.rs:15-28 | Every variant renders as its payload preceded by a non-empty prefix. |
| Errors.DisplayRecoverable | src/error/mod.rs:17-26 | The eight prefixes are distinct and none is a prefix of another, so the message recovers both the variant and the payload. |
| Errors.DisplayInjective | src/error/mod.rs:17-26 | Two errors that render to the same message are the same error. |
| Errors.FromIo | src/error/mod.rs:32-36 | `From<io::Error>` gives `Io`, rendered `IO error: ` + the foreign message. |
| Errors.FromYaml | src/error/mod.rs:38-42 | `From<serde_yaml::Error>` gives `Yaml`, rendered `YAML error: ` + the message. |
| Errors.FromJson | src/error/mod.rs:44-48 | `From<serde_json::Error>` gives `Json`, rendered `JSON error: ` + the message. |
| Errors.FromReqwest | src/error/mod.rs:50-54 | `From<reqwest::Error>` gives `Http`, rendered `HTTP error: ` + the message. |
| Errors.FromPattern | src/error/mod.rs:56-60 | `From<glob::PatternError>` gives `Glob`, rendered `Glob pattern error: ` + the message. |
| Lib.DefaultConfig | src/lib.rs:32-41 | The defaults are indent width 2, single-document output, include tag `!include` and replace tag `!replace`, and the two tags differ. |
| Directives.SpecialFormLength | src/include/directive.rs:11-12 | A string that starts with `$(` and ends with `)` has at least three characters, so the inner slice is in bounds. |
| Directives.Inner | src/include/directive.rs:12 | The inner text, wrapped in `$(` and `)`, gives back the input. |
| Directives.ParseIncludeIff | src/include/directive.rs:10-23 | `parse` returns `Include(input)`, payload unchanged, exactly when the input is not a `$(`…`)` form. Only non-special inputs give `Include`. |
| Directives.ParseShellRoundTrip | src/include/directive.rs:11-14 | `parse("$(shell " + X + ")") == Shell(X)` for every `X`. |
| Directives.ParseJsonRoundTrip | src/include/directive.rs:11-17 | `parse("$(json " + X + ")") == Json(X)` for every `X`. |
| Directives.ParseUnknownIsNone | src/include/directive.rs:11-22 | A special form whose inner text starts with neither `shell ` nor `json ` gives `None`. |
| Resolver.ResolvePath | src/include/resolver.rs:20-26 | Succeeds exactly when the joined path exists, and then returns it. Otherwise it fails with `Include("File not found: " + joined path)`, naming the joined path rather than the relative one. |
| Processor.ExtractIncludeDirective | src/include/processor.rs:65-74 | Returns a payload exactly when the node is tagged with the include tag and its inner value is a string, and the payload is that string. |
| Processor.IndexOf | src/include/processor.rs:46 | The position `Mapping::insert` finds for a key: the first entry with that key, or the end if there is none. |
| Processor.ResolveInclude | src/include/processor.rs:76-94 | The dispatch method computes exactly what the route selects (the spec function `IncludeResult`). |
| Processor.ResolveGlobInclude | src/include/processor.rs:119-136 | The push loop computes the glob result (`GlobResult`): a bad pattern gives `Glob`, the first failing match aborts, otherwise one value per match. |
| Processor.ScanUpdates | src/include/processor.rs:35-42 | The scan loop, with its early return on the first failed resolution, computes `Scan`. |
| Processor.ApplyUpdates | src/include/processor.rs:44-47 | The insert loop computes `Apply`. |
| Processor.ProcessEntries | src/include/processor.rs:49-52 | The loop over a mapping's values, which stops at the first failure, computes `WalkEntries`. |
| Processor.ProcessItems | src/include/processor.rs:54-57 | The loop over a sequence's elements, which stops at the first failure, computes `WalkItems`. |
| Processor.ProcessValue | src/include/processor.rs:31-63 | `process_value` computes `Walk` with the resolutions at its `base_dir`: scan, apply, then walk the values of a mapping; walk a sequence's elements; leave every other node alone. |
| DispatchProps.RouteOrdered | src/include/processor.rs:76-94 | Dispatch is total and ordered: the special form wins over everything, then URLs, then `*`, then plain files, and each non-special route carries the payload unchanged. |
| DispatchProps.RouteGlobNarrowerThanResolver | src/include/processor.rs:88 | Every payload routed to glob satisfies `is_glob_pattern`. A non-special, non-URL payload without `*` is a file include even when `is_glob_pattern` holds. |
| DispatchProps.RouteAgreesWithParse | src/include/processor.rs:96-110 | The processor's special-form handling agrees with `Directive::parse` on shell and json, with the same payloads. It gives an unknown directive exactly where `parse` gives `None`, and takes a non-special route exactly where `parse` gives `Include`. |
| DispatchProps.ShellDirectiveDispatch | src/include/processor.rs:96-102 | `$(shell X)` runs exactly `X`, whatever `X` contains. |
| DispatchProps.JsonDirectiveDispatch | src/include/processor.rs:104-107 | `$(json X)` reads exactly `X` through the JSON bridge. |
| DispatchProps.UnknownDirectiveFails | src/include/processor.rs:109 | Any other special form fails with `Parse("Unknown directive: " + whole directive)`, where `Directive::parse` gives `None`. |
| DispatchProps.FileIncludeJsonBranch | src/include/processor.rs:138-151 | A file include uses the JSON bridge exactly when `is_json_file` holds of the path as written, and YAML otherwise. The read comes first. |
| DispatchProps.ShellOutcome | src/include/processor.rs:176-183 | An unsuccessful exit fails with `Shell("Command failed: " + stderr)`, and the rendered message ends with stderr. A successful exit parses stdout. |
| DispatchProps.CollectMatchesOk | src/include/processor.rs:124-135 | Collection succeeds exactly when every match resolves. It then holds one value per match, in match order. |
| DispatchProps.CollectMatchesFirstErr | src/include/processor.rs:126-131 | A failed collection reports the first failing match's error, and every earlier match resolved. |
| DispatchProps.GlobResultShape | src/include/processor.rs:119-136 | The result of a glob include is a sequence, one value per match, in match order. It fails only with the first failing match's error, and leaves no partial result. |
| WalkProps.ScanOk | src/include/processor.rs:37-42 | The scan succeeds exactly when every directive of the mapping resolves, and every update is keyed by a key of the mapping. |
| WalkProps.ScanFirstErr | src/include/processor.rs:37-42 | A failed scan reports the error of the first directive that fails. Every directive before it resolved. |
| WalkProps.ScanNoDirectives | src/include/processor.rs:37-42 | A mapping without directives produces no updates. |
| WalkProps.InsertExisting | src/include/processor.rs:45-47 | Inserting at an existing key keeps every key in place and does not touch an entry after it. |
| WalkProps.InsertAtLast | src/include/processor.rs:45-47 | Inserting at the key of the last entry, which no earlier entry has, replaces that entry's value. |
| WalkProps.ApplyExisting | src/include/processor.rs:45-47 | Updates whose keys the mapping already has never add or move a key. |
| WalkProps.ApplyScan | src/include/processor.rs:35-47 | With unique keys, after the scan and the apply step every key stays in place, each directive entry holds its resolution and every other entry is untouched. All resolutions come from the unmodified mapping. |
| WalkProps.WalkEntriesDone | src/include/processor.rs:50-52 | A mapping's values walk to completion exactly when each does. The keys are kept and each value is its own walk. |
| WalkProps.WalkItemsDone | src/include/processor.rs:55-57 | A sequence's elements walk to completion exactly when each does. The length is kept and each element is its own walk. |
| WalkProps.WalkEntriesFirstStop | src/include/processor.rs:50-52 | When a mapping's children do not all complete, the walk stops with the error (or the out-of-fuel result) of the first child that does not complete. Every earlier child completed. |
| WalkProps.WalkItemsFirstStop | src/include/processor.rs:55-57 | When a sequence's elements do not all complete, the walk stops with the error (or the out-of-fuel result) of the first element that does not complete. Every earlier element completed. |
| WalkProps.WalkMonotone | src/include/processor.rs:31-63 | A walk that completes or fails within some fuel gives the same result with any larger fuel. |
| WalkProps.WalkEntriesMonotone | src/include/processor.rs:50-52 | The same for a mapping's children. |
| WalkProps.WalkItemsMonotone | src/include/processor.rs:55-57 | The same for a sequence's elements. |
| WalkProps.WalkKeepsKeys | src/include/processor.rs:34-52 | A walked mapping keeps its key list, in order. |
| WalkProps.WalkMappingStep | src/include/processor.rs:34-52 | Each value of a walked mapping is its replacement, walked one level deeper. |
| WalkProps.WalkMapping | src/include/processor.rs:34-52 | A walked mapping keeps its keys. A directive entry holds its resolution, itself walked. Every other entry holds its own value walked and is never overwritten. |
| WalkProps.WalkMappingFirstFailure | src/include/processor.rs:37-42 | If a directive fails to resolve, the walk fails with the first such error before any child is walked. |
| WalkProps.WalkSequence | src/include/processor.rs:54-57 | A walked sequence keeps its length, and each element is walked in order. |
| WalkProps.WalkLeaf | src/include/processor.rs:59 | Scalars and tagged nodes come back untouched, so a directive at the root is not resolved. |
| WalkProps.DirectiveInSequenceKept | src/include/processor.rs:54-59 | A directive that is a sequence element stays unresolved. |
| WalkProps.WalkSettledIdentity | src/include/processor.rs:31-63 | A document without directives in mapping values comes back unchanged, given enough fuel. |
| WalkProps.WalkSettles | src/include/processor.rs:49-52 | Resolution is transitive. If no back end returns a bare directive as a document root, a completed walk leaves no directive in any mapping value at any depth. |
| WalkProps.BareDirectiveResultStays | src/include/processor.rs:33-59 | Without that condition the property fails: an included document that is itself a directive stays unresolved. |
| WalkProps.TransitiveInclude | src/include/processor.rs:39-51 | A directive inside included content is resolved by the same resolutions as the directive that included it, and walked two levels deeper. |
| WalkProps.TransitiveIncludeAtRootBase | src/include/processor.rs:39-51 | With the source's resolutions, a directive inside included content is resolved against the root's base directory, not against the directory of the including path. |
| WalkProps.ScanSameResolutions | src/include/processor.rs:37-42 | The scan depends on its resolutions only through their values. |
| WalkProps.WalkSameResolutions | src/include/processor.rs:31-63 | At every depth, two resolutions that agree on every payload give the same walk. |
| WalkProps.EnvSameResolutions | src/include/processor.rs:39-56 | The outside world enters the walk only through resolutions at the one base directory. Two environments that resolve every payload alike there give the same walk. |
| WalkProps.ProcessFileWithoutDirectives | src/include/processor.rs:20-29 | A root document without directives is serialized exactly as it was parsed. |

## Left out

- HTTP fetching, process spawning, YAML and JSON parsing and serialisation, filesystem reads, `Path::exists`, glob expansion, `Path::join`, `Path::parent` and `strip_prefix` are foreign. They are fields of `Io.Env`, and only their success or failure and their results are modelled. The world is treated as fixed for one run.
- The `async` machinery (`Box::pin`, `.await`) is left out. Resolution is strictly sequential and is modelled as plain recursion.
- Processor.ProcessValue: it returns the new tree instead of mutating `&mut Value` in place. When a later child fails, the source leaves a mapping partly updated. The only caller, `process_file`, discards the value on error, so the difference is not observable from the library's entry point. The source's promise that a failed scan leaves the mapping unchanged is captured only as `WalkMappingFirstFailure`: the walk fails before any insert.
- Processor.ApplyUpdates: it applies the updates in scan order. The source iterates a `HashMap` in unspecified order. The keys of a parsed mapping are distinct, so each insert touches its own entry.
- Processor.Walk: the fuel bound replaces non-termination on cyclic includes, which the source does not detect. `OutOfFuel` means the walk did not finish within the given fuel; more fuel never changes a `Done` or `Failed` result.
- YamlValue.Value: numbers are integers (floats are not modelled), and a tag is kept as the text `Tag::to_string` renders.
- Foreign errors (`io::Error`, `serde_yaml::Error`, …) are represented by the text of their `Display`.
- The `YamlParser` wrapper (`src/parser/yaml.rs`), the HTTP client and shell executor modules, the command-line front end (`src/main.rs`) and the integration tests are not part of this model. The tests are placeholders.
- `Config` fields other than the include tag are carried, but no modelled operation reads them. The replace tag is unused in the source as well.
