/** Properties of the processor's dispatch and back ends, and how they relate
    to the stand-alone `Directive::parse` and `Resolver` predicates. */
module DispatchProps {
  import opened Common
  import opened Errors
  import opened Io
  import opened Processor
  import Directives
  import Resolver

  /** Dispatch is ordered and total: the `$(`...`)` form wins over everything,
      then URLs, then `*`, and a plain file include takes the rest; the
      non-special routes carry the payload unchanged. */
  lemma RouteOrdered(p: string)
    ensures Directives.IsSpecialForm(p) <==>
      (Route(p).ShellCommand? || Route(p).JsonFile? || Route(p).UnknownDirective?)
    ensures Route(p).HttpUrl? <==> !Directives.IsSpecialForm(p) && Resolver.IsUrl(p)
    ensures Route(p).GlobPattern? <==>
      !Directives.IsSpecialForm(p) && !Resolver.IsUrl(p) && '*' in p
    ensures Route(p).LocalFile? <==>
      !Directives.IsSpecialForm(p) && !Resolver.IsUrl(p) && '*' !in p
    ensures Route(p).HttpUrl? ==> Route(p) == HttpUrl(p)
    ensures Route(p).GlobPattern? ==> Route(p) == GlobPattern(p)
    ensures Route(p).LocalFile? ==> Route(p) == LocalFile(p)
  {
  }

  /** Every payload the processor sends to glob is a glob pattern for the
      resolver, but not conversely: a pattern whose only metacharacters are
      `?` or `[` is read as a plain file. */
  lemma RouteGlobNarrowerThanResolver(p: string)
    ensures Route(p).GlobPattern? ==> Resolver.IsGlobPattern(p)
    ensures (!Directives.IsSpecialForm(p) && !Resolver.IsUrl(p) && '*' !in p &&
             Resolver.IsGlobPattern(p)) ==> Route(p) == LocalFile(p)
  {
  }

  /** The processor's special-directive handling agrees with `Directive::parse`
      on shell and json forms; where `parse` gives `None` the processor reports
      an unknown directive; where `parse` gives `Include` the processor picks
      one of the three non-special routes. */
  lemma RouteAgreesWithParse(p: string)
    ensures Route(p).ShellCommand? <==> Directives.Parse(p).Some? && Directives.Parse(p).value.Shell?
    ensures Route(p).ShellCommand? ==> Directives.Parse(p).value.command == Route(p).command
    ensures Route(p).JsonFile? <==> Directives.Parse(p).Some? && Directives.Parse(p).value.Json?
    ensures Route(p).JsonFile? ==> Directives.Parse(p).value.path == Route(p).path
    ensures Route(p).UnknownDirective? <==> Directives.Parse(p).None?
    ensures (Route(p).HttpUrl? || Route(p).GlobPattern? || Route(p).LocalFile?) <==>
      Directives.Parse(p) == Some(Directives.Include(p))
  {
    Directives.ParseIncludeIff(p);
  }

  /** `$(shell X)` runs `X`, even when `X` looks like a URL or a glob. */
  lemma {:induction false} ShellDirectiveDispatch(env: Env, command: string, baseDir: Path)
    ensures Route("$(shell " + command + ")") == ShellCommand(command)
    ensures IncludeResult(env, "$(shell " + command + ")", baseDir) == ResolveShellCommand(env, command)
  {
    var p := "$(shell " + command + ")";
    Directives.ParseShellRoundTrip(command);
    RouteAgreesWithParse(p);
  }

  /** `$(json X)` reads `X` through the JSON bridge. */
  lemma {:induction false} JsonDirectiveDispatch(env: Env, path: string, baseDir: Path)
    ensures Route("$(json " + path + ")") == JsonFile(path)
    ensures IncludeResult(env, "$(json " + path + ")", baseDir) == ResolveJsonInclude(env, path, baseDir)
  {
    var p := "$(json " + path + ")";
    Directives.ParseJsonRoundTrip(path);
    RouteAgreesWithParse(p);
  }

  /** Any other `$(`...`)` form fails with a parse error naming the whole
      directive, where `Directive::parse` would give `None`. */
  lemma UnknownDirectiveFails(env: Env, p: string, baseDir: Path)
    requires Directives.IsSpecialForm(p)
    requires !StartsWith(Directives.Inner(p), "shell ") && !StartsWith(Directives.Inner(p), "json ")
    ensures IncludeResult(env, p, baseDir) == Err(Parse("Unknown directive: " + p))
    ensures Directives.Parse(p).None?
  {
  }

  /** A file include takes the JSON bridge exactly when `Resolver::is_json_file`
      holds of the path as written (not of the joined path). */
  lemma FileIncludeJsonBranch(env: Env, filePath: string, baseDir: Path)
    ensures ResolveFileInclude(env, filePath, baseDir) ==
      match ReadFile(env, env.join(baseDir, filePath))
      case Err(e) => Err(e)
      case Ok(content) =>
        if Resolver.IsJsonFile(filePath) then JsonBridge(env, content) else ParseYaml(env, content)
  {
  }

  /** A command that exits unsuccessfully fails with a shell error whose
      rendered message ends with the captured stderr; a successful one is
      parsed from its stdout. */
  lemma ShellOutcome(env: Env, command: string)
    requires env.runShell(command).Fine?
    ensures !env.runShell(command).value.success ==>
      ResolveShellCommand(env, command) == Err(Shell("Command failed: " + env.runShell(command).value.stderr))
    ensures !env.runShell(command).value.success ==>
      EndsWith(Display(ResolveShellCommand(env, command).error), env.runShell(command).value.stderr)
    ensures env.runShell(command).value.success ==>
      ResolveShellCommand(env, command) == ParseYaml(env, env.runShell(command).value.stdout)
  {
  }

  /** The glob collection succeeds exactly when every match resolves, and then
      holds one value per match, in match order. */
  lemma {:induction false} CollectMatchesOk(env: Env, ms: seq<Fallible<Path>>, baseDir: Path)
    ensures CollectMatches(env, ms, baseDir).Ok? <==>
      forall i :: 0 <= i < |ms| ==> MatchValue(env, ms[i], baseDir).Ok?
    ensures CollectMatches(env, ms, baseDir).Ok? ==>
      |CollectMatches(env, ms, baseDir).value| == |ms| &&
      forall i :: 0 <= i < |ms| ==>
        CollectMatches(env, ms, baseDir).value[i] == MatchValue(env, ms[i], baseDir).value
  {
    if ms != [] {
      var pre := ms[..|ms| - 1];
      CollectMatchesOk(env, pre, baseDir);
      assert forall i :: 0 <= i < |pre| ==> pre[i] == ms[i];
    }
  }

  /** A failed glob collection reports the error of its first failing match,
      and every match before it resolved. */
  lemma {:induction false} CollectMatchesFirstErr(env: Env, ms: seq<Fallible<Path>>, baseDir: Path)
    requires CollectMatches(env, ms, baseDir).Err?
    ensures exists i ::
      && 0 <= i < |ms|
      && MatchValue(env, ms[i], baseDir) == Err(CollectMatches(env, ms, baseDir).error)
      && forall j :: 0 <= j < i ==> MatchValue(env, ms[j], baseDir).Ok?
  {
    var pre := ms[..|ms| - 1];
    assert forall i :: 0 <= i < |pre| ==> pre[i] == ms[i];
    if CollectMatches(env, pre, baseDir).Err? {
      CollectMatchesFirstErr(env, pre, baseDir);
      var i :| 0 <= i < |pre| &&
        MatchValue(env, pre[i], baseDir) == Err(CollectMatches(env, pre, baseDir).error) &&
        forall j :: 0 <= j < i ==> MatchValue(env, pre[j], baseDir).Ok?;
      assert MatchValue(env, ms[i], baseDir) == Err(CollectMatches(env, ms, baseDir).error);
    } else {
      CollectMatchesOk(env, pre, baseDir);
      assert MatchValue(env, ms[|ms| - 1], baseDir) == Err(CollectMatches(env, ms, baseDir).error);
    }
  }

  /** Glob resolution yields a sequence with one fully parsed document per
      match, in match order, or fails with the first failing match's error. */
  lemma GlobResultShape(env: Env, pattern: string, baseDir: Path)
    requires env.glob(env.join(baseDir, pattern)).Listing?
    ensures var ms := env.glob(env.join(baseDir, pattern)).matches;
      GlobResult(env, pattern, baseDir).Ok? <==>
        forall i :: 0 <= i < |ms| ==> MatchValue(env, ms[i], baseDir).Ok?
    ensures var ms := env.glob(env.join(baseDir, pattern)).matches;
      GlobResult(env, pattern, baseDir).Ok? ==>
        GlobResult(env, pattern, baseDir).value.Sequence? &&
        |GlobResult(env, pattern, baseDir).value.items| == |ms| &&
        forall i :: 0 <= i < |ms| ==>
          GlobResult(env, pattern, baseDir).value.items[i] == MatchValue(env, ms[i], baseDir).value
    ensures var ms := env.glob(env.join(baseDir, pattern)).matches;
      GlobResult(env, pattern, baseDir).Err? ==>
        exists i :: 0 <= i < |ms| &&
          MatchValue(env, ms[i], baseDir) == Err(GlobResult(env, pattern, baseDir).error) &&
          forall j :: 0 <= j < i ==> MatchValue(env, ms[j], baseDir).Ok?
  {
    var ms := env.glob(env.join(baseDir, pattern)).matches;
    CollectMatchesOk(env, ms, baseDir);
    if CollectMatches(env, ms, baseDir).Err? {
      CollectMatchesFirstErr(env, ms, baseDir);
    }
  }
}
