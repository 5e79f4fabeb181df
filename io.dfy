/** The outside world the include engine talks to, as plain functions:
    the filesystem (`Path::join`, `Path::parent`, `Path::exists`,
    `read_to_string`, glob expansion, `strip_prefix`), the YAML and JSON
    codecs, the HTTP client and the shell. A foreign call that can fail
    returns `Fault` with the text of the foreign error. Because these are
    functions, the model treats the world as fixed for one run. */
module Io {
  import opened Common
  import opened YamlValue

  /** A filesystem path, as the text `to_string_lossy` / `display` renders. */
  type Path = string

  datatype Fallible<+T> = Fine(value: T) | Fault(message: string)

  /** What `Command::output` captures, after `from_utf8_lossy` on both streams. */
  datatype ShellOutput = ShellOutput(success: bool, stdout: string, stderr: string)

  /** `glob::glob`: a bad pattern, or the matches in the order the iterator yields them,
      each of which may be an unreadable entry. */
  datatype GlobListing = BadPattern(message: string) | Listing(matches: seq<Fallible<Path>>)

  datatype Env = Env(
    join: (Path, string) -> Path,          // base_dir.join(rel)
    parent: Path -> Option<Path>,          // Path::parent
    pathExists: Path -> bool,              // Path::exists
    readFile: Path -> Fallible<string>,    // std::fs::read_to_string (io::Error)
    parseYaml: string -> Fallible<Value>,  // serde_yaml::from_str
    emitYaml: Value -> Fallible<string>,   // serde_yaml::to_string
    parseJson: string -> Fallible<Value>,  // serde_json::from_str
    httpGet: string -> Fallible<string>,   // reqwest GET, then the body text
    glob: string -> GlobListing,           // glob::glob
    relativize: (Path, Path) -> string,    // path.strip_prefix(base).unwrap_or(path)
    runShell: string -> Fallible<ShellOutput>) // `sh -c` / `cmd /C`, then wait
}
