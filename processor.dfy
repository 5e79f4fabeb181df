/** `IncludeProcessor` (src/include/processor.rs): directive extraction,
    dispatch, the five resolution back ends and the tree walk.

    The walk is given twice: as specification functions (`Scan`, `Apply`,
    `Walk`, ...) that follow the source step by step, and as the imperative
    methods `ProcessValue`, `ResolveInclude` and `ResolveGlobInclude`, whose
    loops are proved to compute exactly those functions.

    The source does not terminate on cyclic includes; here every descent
    into a mapping or sequence costs one unit of `fuel`, and running out
    gives `OutOfFuel` (a result the source never produces): the walk did not
    finish within the given fuel. More fuel never changes a `Done` or
    `Failed` result (`WalkProps.WalkMonotone`). */
module Processor {
  import opened Common
  import opened Errors
  import opened Lib
  import opened YamlValue
  import opened Io
  import Directives
  import Resolver

  // ---------------------------------------------------------------------------
  // Directive extraction and dispatch

  /** `extract_include_directive`: the payload of a node tagged with the
      configured include tag whose inner value is a string. */
  function ExtractIncludeDirective(config: Config, v: Value): (r: Option<string>)
    ensures r.Some? <==> v.Tagged? && v.tag == config.includeTag && v.inner.String?
    ensures r.Some? ==> r.value == v.inner.s
  {
    if v.Tagged? && v.tag == config.includeTag && v.inner.String? then Some(v.inner.s)
    else None
  }

  /** The back end `resolve_include` hands a payload to. */
  datatype Target =
    | ShellCommand(command: string)
    | JsonFile(path: string)
    | UnknownDirective(directive: string)
    | HttpUrl(url: string)
    | GlobPattern(pattern: string)
    | LocalFile(path: string)

  /** The decision part of `resolve_special_directive`. */
  function SpecialTarget(directive: string): Target
    requires Directives.IsSpecialForm(directive)
  {
    var inner := Directives.Inner(directive);
    if StartsWith(inner, "shell ") then ShellCommand(inner[6..])
    else if StartsWith(inner, "json ") then JsonFile(inner[5..])
    else UnknownDirective(directive)
  }

  /** The ordered tests of `resolve_include`. Its URL test is the same text as
      `Resolver::is_url`; its glob test looks only for `*`. */
  function Route(includePath: string): Target {
    if Directives.IsSpecialForm(includePath) then SpecialTarget(includePath)
    else if Resolver.IsUrl(includePath) then HttpUrl(includePath)
    else if '*' in includePath then GlobPattern(includePath)
    else LocalFile(includePath)
  }

  // ---------------------------------------------------------------------------
  // Back ends (foreign calls through `Env`, errors through the `From` impls)

  function ReadFile(env: Env, path: Path): Result<string> {
    match env.readFile(path)
    case Fine(content) => Ok(content)
    case Fault(m) => Err(FromIo(m))
  }

  function ParseYaml(env: Env, text: string): Result<Value> {
    match env.parseYaml(text)
    case Fine(v) => Ok(v)
    case Fault(m) => Err(FromYaml(m))
  }

  /** JSON text -> `serde_json::Value` -> YAML text -> `serde_yaml::Value`. */
  function JsonBridge(env: Env, content: string): Result<Value> {
    match env.parseJson(content)
    case Fault(m) => Err(FromJson(m))
    case Fine(json) =>
      match env.emitYaml(json)
      case Fault(m) => Err(FromYaml(m))
      case Fine(yamlText) => ParseYaml(env, yamlText)
  }

  /** `resolve_file_include`: read `base_dir.join(file_path)`; a `.json` suffix
      (case-sensitive) selects the JSON bridge, anything else is YAML. */
  function ResolveFileInclude(env: Env, filePath: string, baseDir: Path): Result<Value> {
    match ReadFile(env, env.join(baseDir, filePath))
    case Err(e) => Err(e)
    case Ok(content) =>
      if EndsWith(filePath, ".json") then JsonBridge(env, content)
      else ParseYaml(env, content)
  }

  /** `resolve_json_include`: always the JSON bridge. */
  function ResolveJsonInclude(env: Env, filePath: string, baseDir: Path): Result<Value> {
    match ReadFile(env, env.join(baseDir, filePath))
    case Err(e) => Err(e)
    case Ok(content) => JsonBridge(env, content)
  }

  /** `resolve_http_include` */
  function ResolveHttpInclude(env: Env, url: string): Result<Value> {
    match env.httpGet(url)
    case Fault(m) => Err(FromReqwest(m))
    case Fine(body) => ParseYaml(env, body)
  }

  /** `resolve_shell_command`; the base directory it receives is unused. */
  function ResolveShellCommand(env: Env, command: string): Result<Value> {
    match env.runShell(command)
    case Fault(m) => Err(FromIo(m))
    case Fine(output) =>
      if !output.success then Err(Shell("Command failed: " + output.stderr))
      else ParseYaml(env, output.stdout)
  }

  /** One glob match: an unreadable entry becomes an include error, a path is
      read as a file include relative to the base directory. */
  function MatchValue(env: Env, m: Fallible<Path>, baseDir: Path): Result<Value> {
    match m
    case Fault(msg) => Err(Include(msg))
    case Fine(path) => ResolveFileInclude(env, env.relativize(path, baseDir), baseDir)
  }

  /** The values of the matches in order; the first failure aborts. */
  function CollectMatches(env: Env, ms: seq<Fallible<Path>>, baseDir: Path): Result<seq<Value>> {
    if ms == [] then Ok([])
    else
      match CollectMatches(env, ms[..|ms| - 1], baseDir)
      case Err(e) => Err(e)
      case Ok(vs) =>
        match MatchValue(env, ms[|ms| - 1], baseDir)
        case Err(e) => Err(e)
        case Ok(v) => Ok(vs + [v])
  }

  /** What `resolve_glob_include` computes. */
  function GlobResult(env: Env, pattern: string, baseDir: Path): Result<Value> {
    match env.glob(env.join(baseDir, pattern))
    case BadPattern(m) => Err(FromPattern(m))
    case Listing(ms) =>
      match CollectMatches(env, ms, baseDir)
      case Err(e) => Err(e)
      case Ok(vs) => Ok(Sequence(vs))
  }

  /** What `resolve_include` computes for a payload. */
  function IncludeResult(env: Env, includePath: string, baseDir: Path): Result<Value> {
    match Route(includePath)
    case ShellCommand(command) => ResolveShellCommand(env, command)
    case JsonFile(path) => ResolveJsonInclude(env, path, baseDir)
    case UnknownDirective(directive) => Err(Parse("Unknown directive: " + directive))
    case HttpUrl(url) => ResolveHttpInclude(env, url)
    case GlobPattern(pattern) => GlobResult(env, pattern, baseDir)
    case LocalFile(path) => ResolveFileInclude(env, path, baseDir)
  }

  // ---------------------------------------------------------------------------
  // The walk, as specification functions

  /** What `resolve_include` gives for every payload, at one base directory.
      The walk receives it once and passes it down unchanged, which is how
      `process_value` threads its one `base_dir` through every call. */
  type Resolutions = string -> Result<Value>

  function ResolveAt(env: Env, baseDir: Path): Resolutions {
    p => IncludeResult(env, p, baseDir)
  }

  /** The scan of a mapping: the `updates` list (key and resolved value of every
      directive entry, in mapping order), or the first resolution error. */
  function Scan(config: Config, resolve: Resolutions, es: seq<Entry>): Result<seq<Entry>> {
    if es == [] then Ok([])
    else
      match Scan(config, resolve, es[..|es| - 1])
      case Err(e) => Err(e)
      case Ok(updates) =>
        var last := es[|es| - 1];
        match ExtractIncludeDirective(config, last.value)
        case None => Ok(updates)
        case Some(includePath) =>
          match resolve(includePath)
          case Err(e) => Err(e)
          case Ok(resolved) => Ok(updates + [Entry(last.key, resolved)])
  }

  /** Position of the first entry with key `k`, or `|es|` if there is none. */
  function IndexOf(es: seq<Entry>, k: Value): (i: nat)
    ensures i <= |es|
    ensures i < |es| ==> es[i].key == k
    ensures forall j :: 0 <= j < i ==> es[j].key != k
  {
    if es == [] then 0
    else if es[0].key == k then 0
    else 1 + IndexOf(es[1..], k)
  }

  /** `Mapping::insert`: an existing key keeps its position and gets the new
      value; a new key is appended. */
  function Insert(es: seq<Entry>, u: Entry): seq<Entry> {
    var i := IndexOf(es, u.key);
    if i < |es| then es[i := Entry(es[i].key, u.value)] else es + [u]
  }

  /** The apply loop: every update inserted, in order. */
  function Apply(es: seq<Entry>, updates: seq<Entry>): seq<Entry> {
    if updates == [] then es
    else Insert(Apply(es, updates[..|updates| - 1]), updates[|updates| - 1])
  }

  datatype Outcome<+T> = Done(value: T) | Failed(error: YincError) | OutOfFuel

  /** `process_value`: on a mapping, scan, apply, then walk every value; on a
      sequence, walk every element; anything else is a leaf. */
  function Walk(config: Config, resolve: Resolutions, v: Value, fuel: nat): Outcome<Value>
    decreases fuel, 0
  {
    match v
    case Mapping(es) =>
      if fuel == 0 then OutOfFuel
      else
        (match Scan(config, resolve, es)
         case Err(e) => Failed(e)
         case Ok(updates) =>
           match WalkEntries(config, resolve, Apply(es, updates), fuel - 1)
           case Done(ws) => Done(Mapping(ws))
           case Failed(e) => Failed(e)
           case OutOfFuel => OutOfFuel)
    case Sequence(xs) =>
      if fuel == 0 then OutOfFuel
      else
        (match WalkItems(config, resolve, xs, fuel - 1)
         case Done(ys) => Done(Sequence(ys))
         case Failed(e) => Failed(e)
         case OutOfFuel => OutOfFuel)
    case _ => Done(v)
  }

  /** The values of a mapping walked in order; keys are kept. */
  function WalkEntries(config: Config, resolve: Resolutions, es: seq<Entry>, fuel: nat): Outcome<seq<Entry>>
    decreases fuel, |es| + 1
  {
    if es == [] then Done([])
    else
      match WalkEntries(config, resolve, es[..|es| - 1], fuel)
      case Failed(e) => Failed(e)
      case OutOfFuel => OutOfFuel
      case Done(ws) =>
        var last := es[|es| - 1];
        match Walk(config, resolve, last.value, fuel)
        case Failed(e) => Failed(e)
        case OutOfFuel => OutOfFuel
        case Done(w) => Done(ws + [Entry(last.key, w)])
  }

  /** The elements of a sequence walked in order. */
  function WalkItems(config: Config, resolve: Resolutions, xs: seq<Value>, fuel: nat): Outcome<seq<Value>>
    decreases fuel, |xs| + 1
  {
    if xs == [] then Done([])
    else
      match WalkItems(config, resolve, xs[..|xs| - 1], fuel)
      case Failed(e) => Failed(e)
      case OutOfFuel => OutOfFuel
      case Done(ys) =>
        match Walk(config, resolve, xs[|xs| - 1], fuel)
        case Failed(e) => Failed(e)
        case OutOfFuel => OutOfFuel
        case Done(y) => Done(ys + [y])
  }

  /** The base directory of `process_file`: the parent of the root file, or `.`. */
  function BaseDir(env: Env, filePath: Path): Path {
    match env.parent(filePath)
    case Some(dir) => dir
    case None => "."
  }

  /** `process_file`: read and parse the root, walk it from its base directory,
      serialize the result. */
  function ProcessFile(config: Config, env: Env, filePath: Path, fuel: nat): Outcome<string> {
    match ReadFile(env, filePath)
    case Err(e) => Failed(e)
    case Ok(content) =>
      match ParseYaml(env, content)
      case Err(e) => Failed(e)
      case Ok(root) =>
        match Walk(config, ResolveAt(env, BaseDir(env, filePath)), root, fuel)
        case Failed(e) => Failed(e)
        case OutOfFuel => OutOfFuel
        case Done(v) =>
          match env.emitYaml(v)
          case Fault(m) => Failed(FromYaml(m))
          case Fine(text) => Done(text)
  }

  // ---------------------------------------------------------------------------
  // A failure of a prefix is the failure of the whole (the loops return early)

  lemma {:induction false} CollectMatchesPrefixErr(env: Env, ms: seq<Fallible<Path>>, baseDir: Path, i: nat)
    requires i <= |ms| && CollectMatches(env, ms[..i], baseDir).Err?
    ensures CollectMatches(env, ms, baseDir) == CollectMatches(env, ms[..i], baseDir)
    decreases |ms| - i
  {
    if i < |ms| {
      assert ms[..i + 1][..i] == ms[..i];
      CollectMatchesPrefixErr(env, ms, baseDir, i + 1);
    } else {
      assert ms[..i] == ms;
    }
  }

  lemma {:induction false} ScanPrefixErr(config: Config, resolve: Resolutions, es: seq<Entry>, i: nat)
    requires i <= |es| && Scan(config, resolve, es[..i]).Err?
    ensures Scan(config, resolve, es) == Scan(config, resolve, es[..i])
    decreases |es| - i
  {
    if i < |es| {
      assert es[..i + 1][..i] == es[..i];
      ScanPrefixErr(config, resolve, es, i + 1);
    } else {
      assert es[..i] == es;
    }
  }

  lemma {:induction false} WalkEntriesPrefixStop(config: Config, resolve: Resolutions, es: seq<Entry>, fuel: nat, i: nat)
    requires i <= |es| && !WalkEntries(config, resolve, es[..i], fuel).Done?
    ensures WalkEntries(config, resolve, es, fuel) == WalkEntries(config, resolve, es[..i], fuel)
    decreases |es| - i
  {
    if i < |es| {
      assert es[..i + 1][..i] == es[..i];
      WalkEntriesPrefixStop(config, resolve, es, fuel, i + 1);
    } else {
      assert es[..i] == es;
    }
  }

  lemma {:induction false} WalkItemsPrefixStop(config: Config, resolve: Resolutions, xs: seq<Value>, fuel: nat, i: nat)
    requires i <= |xs| && !WalkItems(config, resolve, xs[..i], fuel).Done?
    ensures WalkItems(config, resolve, xs, fuel) == WalkItems(config, resolve, xs[..i], fuel)
    decreases |xs| - i
  {
    if i < |xs| {
      assert xs[..i + 1][..i] == xs[..i];
      WalkItemsPrefixStop(config, resolve, xs, fuel, i + 1);
    } else {
      assert xs[..i] == xs;
    }
  }

  // ---------------------------------------------------------------------------
  // The walk, as the source runs it

  /** `resolve_glob_include`: expand, then resolve each match, pushing onto `results`. */
  method ResolveGlobInclude(env: Env, pattern: string, baseDir: Path) returns (r: Result<Value>)
    ensures r == GlobResult(env, pattern, baseDir)
  {
    var listing := env.glob(env.join(baseDir, pattern));
    if listing.BadPattern? {
      return Err(FromPattern(listing.message));
    }
    var paths := listing.matches;
    var results: seq<Value> := [];
    var i := 0;
    while i < |paths|
      invariant 0 <= i <= |paths|
      invariant CollectMatches(env, paths[..i], baseDir) == Ok(results)
    {
      assert paths[..i + 1][..i] == paths[..i];
      var value := MatchValue(env, paths[i], baseDir);
      if value.Err? {
        CollectMatchesPrefixErr(env, paths, baseDir, i + 1);
        return Err(value.error);
      }
      results := results + [value.value];
      i := i + 1;
    }
    assert paths[..i] == paths;
    r := Ok(Sequence(results));
  }

  /** `resolve_include`: dispatch on the route. */
  method ResolveInclude(env: Env, includePath: string, baseDir: Path) returns (r: Result<Value>)
    ensures r == IncludeResult(env, includePath, baseDir)
  {
    match Route(includePath)
    case ShellCommand(command) => r := ResolveShellCommand(env, command);
    case JsonFile(path) => r := ResolveJsonInclude(env, path, baseDir);
    case UnknownDirective(directive) => r := Err(Parse("Unknown directive: " + directive));
    case HttpUrl(url) => r := ResolveHttpInclude(env, url);
    case GlobPattern(pattern) => r := ResolveGlobInclude(env, pattern, baseDir);
    case LocalFile(path) => r := ResolveFileInclude(env, path, baseDir);
  }

  /** The scan loop of `process_value` (the `updates` map, filled in mapping order). */
  method ScanUpdates(config: Config, env: Env, baseDir: Path, es: seq<Entry>) returns (r: Result<seq<Entry>>)
    ensures r == Scan(config, ResolveAt(env, baseDir), es)
  {
    var updates: seq<Entry> := [];
    var i := 0;
    while i < |es|
      invariant 0 <= i <= |es|
      invariant Scan(config, ResolveAt(env, baseDir), es[..i]) == Ok(updates)
    {
      assert es[..i + 1][..i] == es[..i];
      var includePath := ExtractIncludeDirective(config, es[i].value);
      if includePath.Some? {
        var resolved := ResolveInclude(env, includePath.value, baseDir);
        if resolved.Err? {
          ScanPrefixErr(config, ResolveAt(env, baseDir), es, i + 1);
          return Err(resolved.error);
        }
        updates := updates + [Entry(es[i].key, resolved.value)];
      }
      i := i + 1;
    }
    assert es[..i] == es;
    r := Ok(updates);
  }

  /** The apply loop of `process_value`: `map.insert` for every update. */
  method ApplyUpdates(es: seq<Entry>, updates: seq<Entry>) returns (entries: seq<Entry>)
    ensures entries == Apply(es, updates)
  {
    entries := es;
    var j := 0;
    while j < |updates|
      invariant 0 <= j <= |updates|
      invariant entries == Apply(es, updates[..j])
    {
      assert updates[..j + 1][..j] == updates[..j];
      entries := Insert(entries, updates[j]);
      j := j + 1;
    }
    assert updates[..j] == updates;
  }

  /** The `iter_mut` loop over a mapping: walk every value, stop at the first failure. */
  method ProcessEntries(config: Config, env: Env, baseDir: Path, entries: seq<Entry>, fuel: nat)
    returns (r: Outcome<seq<Entry>>)
    ensures r == WalkEntries(config, ResolveAt(env, baseDir), entries, fuel)
    decreases fuel, 1
  {
    var walked: seq<Entry> := [];
    var k := 0;
    while k < |entries|
      invariant 0 <= k <= |entries|
      invariant WalkEntries(config, ResolveAt(env, baseDir), entries[..k], fuel) == Done(walked)
    {
      assert entries[..k + 1][..k] == entries[..k];
      var child := ProcessValue(config, env, baseDir, entries[k].value, fuel);
      if !child.Done? {
        WalkEntriesPrefixStop(config, ResolveAt(env, baseDir), entries, fuel, k + 1);
        return if child.Failed? then Failed(child.error) else OutOfFuel;
      }
      walked := walked + [Entry(entries[k].key, child.value)];
      k := k + 1;
    }
    assert entries[..k] == entries;
    r := Done(walked);
  }

  /** The `iter_mut` loop over a sequence: walk every element, stop at the first failure. */
  method ProcessItems(config: Config, env: Env, baseDir: Path, xs: seq<Value>, fuel: nat)
    returns (r: Outcome<seq<Value>>)
    ensures r == WalkItems(config, ResolveAt(env, baseDir), xs, fuel)
    decreases fuel, 1
  {
    var items: seq<Value> := [];
    var k := 0;
    while k < |xs|
      invariant 0 <= k <= |xs|
      invariant WalkItems(config, ResolveAt(env, baseDir), xs[..k], fuel) == Done(items)
    {
      assert xs[..k + 1][..k] == xs[..k];
      var child := ProcessValue(config, env, baseDir, xs[k], fuel);
      if !child.Done? {
        WalkItemsPrefixStop(config, ResolveAt(env, baseDir), xs, fuel, k + 1);
        return if child.Failed? then Failed(child.error) else OutOfFuel;
      }
      items := items + [child.value];
      k := k + 1;
    }
    assert xs[..k] == xs;
    r := Done(items);
  }

  /** `process_value`: on a mapping, collect the updates, apply them, then walk
      every value; on a sequence, walk every element; leave anything else. */
  method ProcessValue(config: Config, env: Env, baseDir: Path, v: Value, fuel: nat) returns (r: Outcome<Value>)
    ensures r == Walk(config, ResolveAt(env, baseDir), v, fuel)
    decreases fuel, 0
  {
    match v
    case Mapping(es) =>
      if fuel == 0 {
        return OutOfFuel;
      }
      var updates := ScanUpdates(config, env, baseDir, es);
      if updates.Err? {
        return Failed(updates.error);
      }
      var entries := ApplyUpdates(es, updates.value);
      var walked := ProcessEntries(config, env, baseDir, entries, fuel - 1);
      r := match walked
        case Done(ws) => Done(Mapping(ws))
        case Failed(e) => Failed(e)
        case OutOfFuel => OutOfFuel;
    case Sequence(xs) =>
      if fuel == 0 {
        return OutOfFuel;
      }
      var walked := ProcessItems(config, env, baseDir, xs, fuel - 1);
      r := match walked
        case Done(ys) => Done(Sequence(ys))
        case Failed(e) => Failed(e)
        case OutOfFuel => OutOfFuel;
    case _ =>
      r := Done(v);
  }
}
