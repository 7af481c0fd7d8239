/**
 * Properties of the webhook handler that relate several calls, or a call and
 * an independent definition: the inverse of the shell line, what the
 * outcome may depend on, and the guard order on concrete requests.
 */
module DeployHookProperties {
  import opened Wrappers
  import opened DeployHook

  /** The index of the first '&' in `s`, or `|s|` when there is none. */
  function FirstAmp(s: string): (k: nat)
    ensures k <= |s|
    ensures forall i :: 0 <= i < k ==> s[i] != '&'
    ensures k < |s| ==> s[k] == '&'
  {
    if s == [] then 0
    else if s[0] == '&' then 0
    else 1 + FirstAmp(s[1..])
  }

  /**
   * Reads a shell line back into its path and command, splitting at the
   * first " && ". Whatever it returns rebuilds the line, with a path free
   * of '&'.
   */
  function ParseShellLine(line: string): (r: Option<(string, string)>)
    ensures r.Some? ==> ShellLine(r.value.0, r.value.1) == line
    ensures r.Some? ==> '&' !in r.value.0
  {
    if |line| < 3 || line[..3] != "cd " then None
    else
      var rest := line[3..];
      var k := FirstAmp(rest);
      if 1 <= k && k + 3 <= |rest| && rest[k - 1..k + 3] == " && " then
        assert rest == rest[..k - 1] + " && " + rest[k + 3..];
        assert line == "cd " + rest;
        assert forall i :: 0 <= i < k - 1 ==> rest[..k - 1][i] == rest[i];
        Some((rest[..k - 1], rest[k + 3..]))
      else None
  }

  /**
   * Parsing at the first '&' gives the repository's path and command back
   * exactly when the path holds no '&'.
   */
  lemma ShellLineRoundTrip(path: string, cmd: string)
    ensures ParseShellLine(ShellLine(path, cmd)) == Some((path, cmd)) <==> '&' !in path
  {
    if '&' !in path {
      var line := ShellLine(path, cmd);
      var rest := path + " && " + cmd;
      assert line[..3] == "cd ";
      assert line[3..] == rest;
      var k := FirstAmp(rest);
      assert rest[|path| + 1] == '&';
      assert k == |path| + 1;
      assert rest[k - 1..k + 3] == " && ";
      assert rest[..k - 1] == path;
      assert rest[k + 3..] == cmd;
    }
  }

  /**
   * The shell line alone does not always determine the entry: moving a
   * " && " from the end of the path to the start of the command leaves the
   * line unchanged.
   */
  lemma ShellLineAmbiguous(path: string, middle: string, cmd: string)
    ensures ShellLine(path + " && " + middle, cmd) == ShellLine(path, middle + " && " + cmd)
  {
  }

  /**
   * The outcome depends on the registry only through the entry the request
   * names: two registries that agree on that identifier give the same
   * outcome.
   */
  lemma OnlyMatchedEntryMatters(r1: Registry, r2: Registry, req: Request, spawn: Argv -> ExitCode)
    requires Lookup(r1, RepoId(req.pathname)) == Lookup(r2, RepoId(req.pathname))
    ensures Handle(r1, req, spawn) == Handle(r2, req, spawn)
  {
  }

  /**
   * The outcome depends on the spawner only through whether the deployment
   * exited with code 0: two spawners that agree on that give the same
   * outcome, whatever other exit codes they report.
   */
  lemma OnlyExitZeroMatters(registry: Registry, req: Request, s1: Argv -> ExitCode, s2: Argv -> ExitCode)
    requires forall argv: Argv :: (s1(argv) == Some(0)) == (s2(argv) == Some(0))
    ensures Handle(registry, req, s1) == Handle(registry, req, s2)
  {
  }

  /**
   * The status is one of the five the handler writes, and it is 200 exactly
   * when every guard passed and the deployment exited with code 0.
   */
  lemma StatusCodes(registry: Registry, req: Request, spawn: Argv -> ExitCode)
    ensures Handle(registry, req, spawn).response.status in {200, 403, 404, 405, 500}
    ensures Handle(registry, req, spawn).response.status == 200 <==>
      Authorized(registry, req) && spawn(DeployArgv(registry[RepoId(req.pathname)])) == Some(0)
  {
  }

  /** Only the exact, upper-case method name POST passes the method guard. */
  lemma MethodGuardCaseSensitive(httpMethod: string)
    ensures MethodAllowed(httpMethod) <==> httpMethod == "POST"
    ensures !MethodAllowed("post") && !MethodAllowed("Post") && !MethodAllowed("PUT")
  {
  }

  /** The identifier is the pathname after its leading '/'. */
  lemma RepoIdExamples()
    ensures RepoId("/app") == "app"
    ensures RepoId("/") == ""
    ensures RepoId("") == ""
    ensures forall id :: RepoId("/" + id) == id
  {
  }

  /** A sample registry with one entry, for the concrete guard-order facts below. */
  function SampleRegistry(): Registry {
    map["app" := Repo("s", "/srv/app", "git pull")]
  }

  /**
   * The guards apply in order: a wrong method wins over an unknown
   * repository, an unknown repository wins over a wrong secret, and the
   * secret is compared exactly, letter case included.
   */
  lemma GuardOrderExamples(spawn: Argv -> ExitCode)
    ensures Handle(SampleRegistry(), Request("GET", "/nope", None), spawn) == Outcome(METHOD_NOT_ALLOWED, [])
    ensures Handle(SampleRegistry(), Request("post", "/app", Some("s")), spawn) == Outcome(METHOD_NOT_ALLOWED, [])
    ensures Handle(SampleRegistry(), Request("POST", "/nope", Some("wrong")), spawn) == Outcome(UNKNOWN_REPO, [])
    ensures Handle(SampleRegistry(), Request("POST", "/app", Some("wrong")), spawn) == Outcome(FORBIDDEN, [])
    ensures Handle(SampleRegistry(), Request("POST", "/app", Some("S")), spawn) == Outcome(FORBIDDEN, [])
    ensures Handle(SampleRegistry(), Request("POST", "/app", None), spawn) == Outcome(FORBIDDEN, [])
    ensures Handle(SampleRegistry(), Request("POST", "/app", Some("s")), spawn).spawned
      == [["sh", "-c", "cd /srv/app && git pull"]]
  {
    assert RepoId("/nope") == "nope";
    assert RepoId("/app") == "app";
    assert "nope" !in SampleRegistry();
    assert ShellLine("/srv/app", "git pull") == "cd /srv/app && git pull";
  }
}
