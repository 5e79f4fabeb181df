/** The library's error type (`YincError`), its `Display` rendering and the
    `From` conversions that `?` applies to the errors of foreign crates.
    A wrapped foreign error (`std::io::Error`, `serde_yaml::Error`, ...) is
    represented by the text its own `Display` produces. */
module Errors {
  import opened Common

  datatype YincError =
    | Io(message: string)
    | Yaml(message: string)
    | Json(message: string)
    | Http(message: string)
    | Glob(message: string)
    | Shell(message: string)
    | Include(message: string)
    | Parse(message: string)

  /** `Result<T>` of the library: `std::result::Result<T, YincError>`. */
  datatype Result<+T> = Ok(value: T) | Err(error: YincError)

  const IoPrefix := "IO error: "
  const YamlPrefix := "YAML error: "
  const JsonPrefix := "JSON error: "
  const HttpPrefix := "HTTP error: "
  const GlobPrefix := "Glob pattern error: "
  const ShellPrefix := "Shell command error: "
  const IncludePrefix := "Include error: "
  const ParsePrefix := "Parse error: "

  /** `impl fmt::Display for YincError`: one fixed prefix per variant, then the payload. */
  function Display(e: YincError): (s: string)
    ensures |e.message| < |s| && s[|s| - |e.message|..] == e.message
  {
    match e
    case Io(m) => IoPrefix + m
    case Yaml(m) => YamlPrefix + m
    case Json(m) => JsonPrefix + m
    case Http(m) => HttpPrefix + m
    case Glob(m) => GlobPrefix + m
    case Shell(m) => ShellPrefix + m
    case Include(m) => IncludePrefix + m
    case Parse(m) => ParsePrefix + m
  }

  /** Reads a rendered message back into the error it came from, by its prefix. */
  function ParseMessage(s: string): Option<YincError> {
    if StartsWith(s, IoPrefix) then Some(Io(s[|IoPrefix|..]))
    else if StartsWith(s, YamlPrefix) then Some(Yaml(s[|YamlPrefix|..]))
    else if StartsWith(s, JsonPrefix) then Some(Json(s[|JsonPrefix|..]))
    else if StartsWith(s, HttpPrefix) then Some(Http(s[|HttpPrefix|..]))
    else if StartsWith(s, GlobPrefix) then Some(Glob(s[|GlobPrefix|..]))
    else if StartsWith(s, ShellPrefix) then Some(Shell(s[|ShellPrefix|..]))
    else if StartsWith(s, IncludePrefix) then Some(Include(s[|IncludePrefix|..]))
    else if StartsWith(s, ParsePrefix) then Some(Parse(s[|ParsePrefix|..]))
    else None
  }

  /** The variant and the payload can be recovered from every rendered message. */
  lemma DisplayRecoverable(e: YincError)
    ensures ParseMessage(Display(e)) == Some(e)
  {
    var s := Display(e);
    match e
    case Io(m) =>
      StartsWithConcat(IoPrefix, m);
      assert s[|IoPrefix|..] == m;
    case Yaml(m) =>
      NotStartsWithAt(s, IoPrefix, 0);
      StartsWithConcat(YamlPrefix, m);
      assert s[|YamlPrefix|..] == m;
    case Json(m) =>
      NotStartsWithAt(s, IoPrefix, 0);
      NotStartsWithAt(s, YamlPrefix, 0);
      StartsWithConcat(JsonPrefix, m);
      assert s[|JsonPrefix|..] == m;
    case Http(m) =>
      NotStartsWithAt(s, IoPrefix, 0);
      NotStartsWithAt(s, YamlPrefix, 0);
      NotStartsWithAt(s, JsonPrefix, 0);
      StartsWithConcat(HttpPrefix, m);
      assert s[|HttpPrefix|..] == m;
    case Glob(m) =>
      NotStartsWithAt(s, IoPrefix, 0);
      NotStartsWithAt(s, YamlPrefix, 0);
      NotStartsWithAt(s, JsonPrefix, 0);
      NotStartsWithAt(s, HttpPrefix, 0);
      StartsWithConcat(GlobPrefix, m);
      assert s[|GlobPrefix|..] == m;
    case Shell(m) =>
      NotStartsWithAt(s, IoPrefix, 0);
      NotStartsWithAt(s, YamlPrefix, 0);
      NotStartsWithAt(s, JsonPrefix, 0);
      NotStartsWithAt(s, HttpPrefix, 0);
      NotStartsWithAt(s, GlobPrefix, 0);
      StartsWithConcat(ShellPrefix, m);
      assert s[|ShellPrefix|..] == m;
    case Include(m) =>
      NotStartsWithAt(s, IoPrefix, 1);
      NotStartsWithAt(s, YamlPrefix, 0);
      NotStartsWithAt(s, JsonPrefix, 0);
      NotStartsWithAt(s, HttpPrefix, 0);
      NotStartsWithAt(s, GlobPrefix, 0);
      NotStartsWithAt(s, ShellPrefix, 0);
      StartsWithConcat(IncludePrefix, m);
      assert s[|IncludePrefix|..] == m;
    case Parse(m) =>
      NotStartsWithAt(s, IoPrefix, 0);
      NotStartsWithAt(s, YamlPrefix, 0);
      NotStartsWithAt(s, JsonPrefix, 0);
      NotStartsWithAt(s, HttpPrefix, 0);
      NotStartsWithAt(s, GlobPrefix, 0);
      NotStartsWithAt(s, ShellPrefix, 0);
      NotStartsWithAt(s, IncludePrefix, 0);
      StartsWithConcat(ParsePrefix, m);
      assert s[|ParsePrefix|..] == m;
  }

  /** Distinct errors never render to the same message: the prefixes are
      pairwise distinct and none is a prefix of another. */
  lemma DisplayInjective(a: YincError, b: YincError)
    requires Display(a) == Display(b)
    ensures a == b
  {
    DisplayRecoverable(a);
    DisplayRecoverable(b);
  }

  // `impl From<...> for YincError`: each foreign error lands in its own variant.

  /** `From<std::io::Error>` */
  function FromIo(message: string): (e: YincError)
    ensures e.Io? && Display(e) == IoPrefix + message
  {
    Io(message)
  }

  /** `From<serde_yaml::Error>` */
  function FromYaml(message: string): (e: YincError)
    ensures e.Yaml? && Display(e) == YamlPrefix + message
  {
    Yaml(message)
  }

  /** `From<serde_json::Error>` */
  function FromJson(message: string): (e: YincError)
    ensures e.Json? && Display(e) == JsonPrefix + message
  {
    Json(message)
  }

  /** `From<reqwest::Error>` */
  function FromReqwest(message: string): (e: YincError)
    ensures e.Http? && Display(e) == HttpPrefix + message
  {
    Http(message)
  }

  /** `From<glob::PatternError>` */
  function FromPattern(message: string): (e: YincError)
    ensures e.Glob? && Display(e) == GlobPrefix + message
  {
    Glob(message)
  }
}
