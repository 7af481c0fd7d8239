/**
 * The webhook handler of the deploy hook: one request in, one response out,
 * with at most one shell command spawned on the way.
 *
 * The handler keeps no state between requests, so it is a function of the
 * registry, the request and the oracle that stands for running a process.
 */
module DeployHook {
  import opened Wrappers

  /** One entry of the repository registry. */
  datatype Repo = Repo(secret: string, path: string, cmd: string)

  /** The registry, keyed by repository identifier. */
  type Registry = map<string, Repo>

  /**
   * What the handler reads of a request: the method, the pathname of the
   * request URL, and the value of the `x-hook-secret` header (None when the
   * header is absent).
   */
  datatype Request = Request(httpMethod: string, pathname: string, hookSecret: Option<string>)

  datatype Response = Response(status: nat, body: string)

  /** The argument vector handed to the process spawner. */
  type Argv = seq<string>

  /**
   * The exit code the spawner reports for a finished process; None when the
   * process ended without one (it was terminated by a signal).
   */
  type ExitCode = Option<int>

  /** The response, and every argument vector spawned while producing it, in order. */
  datatype Outcome = Outcome(response: Response, spawned: seq<Argv>)

  const METHOD_NOT_ALLOWED := Response(405, "method not allowed")
  const UNKNOWN_REPO := Response(404, "unknown repo")
  const FORBIDDEN := Response(403, "forbidden")
  const DEPLOYED := Response(200, "ok")
  const DEPLOY_FAILED := Response(500, "deploy failed")

  /** Only POST is accepted; the comparison is exact and case-sensitive. */
  predicate MethodAllowed(httpMethod: string) {
    httpMethod == "POST"
  }

  /** The repository identifier: the pathname without its first character. */
  function RepoId(pathname: string): (id: string)
    ensures |pathname| > 0 ==> pathname == [pathname[0]] + id
    ensures |pathname| == 0 ==> id == ""
  {
    if |pathname| == 0 then "" else pathname[1..]
  }

  /** The registry entry for an identifier, if it has one. */
  function Lookup(registry: Registry, id: string): (r: Option<Repo>)
    ensures r.Some? <==> id in registry
    ensures r.Some? ==> r.value == registry[id]
  {
    if id in registry then Some(registry[id]) else None
  }

  /** The header authenticates exactly when it is present and equal to the secret. */
  function SecretMatches(header: Option<string>, secret: string): (ok: bool)
    ensures ok <==> header == Some(secret)
  {
    match header
    case None => false
    case Some(h) => h == secret
  }

  /**
   * The shell line run for a repository: change into its path, then run its
   * command. The line is "cd ", the path, " && " and the command, each at
   * its own position.
   */
  function ShellLine(path: string, cmd: string): (line: string)
    ensures |line| == |path| + |cmd| + 7
    ensures line[..3] == "cd " && line[3..3 + |path|] == path
    ensures line[3 + |path|..7 + |path|] == " && " && line[7 + |path|..] == cmd
  {
    "cd " + path + " && " + cmd
  }

  /** The argument vector of the deployment: the shell line handed to `sh -c`. */
  function DeployArgv(repo: Repo): (argv: Argv)
    ensures |argv| == 3 && argv[0] == "sh" && argv[1] == "-c"
    ensures argv[2] == ShellLine(repo.path, repo.cmd)
  {
    ["sh", "-c", ShellLine(repo.path, repo.cmd)]
  }

  /** The response chosen from the exit code: success exactly on exit code 0. */
  function ExitResponse(code: ExitCode): (r: Response)
    ensures r == DEPLOYED || r == DEPLOY_FAILED
    ensures r.status == 200 <==> code == Some(0)
  {
    if code == Some(0) then DEPLOYED else DEPLOY_FAILED
  }

  /**
   * A request passes every guard: it is a POST, its identifier names a
   * registry entry, and its header carries exactly that entry's secret.
   */
  predicate Authorized(registry: Registry, req: Request) {
    && MethodAllowed(req.httpMethod)
    && RepoId(req.pathname) in registry
    && req.hookSecret == Some(registry[RepoId(req.pathname)].secret)
  }

  /**
   * The guards, in the handler's order: method, then repository, then
   * secret. Success carries the matched entry; failure carries the response
   * of the first guard that failed.
   */
  function Authorize(registry: Registry, req: Request): (r: Result<Repo, Response>)
    ensures r.Success? <==> Authorized(registry, req)
    ensures r.Success? ==> r.value == registry[RepoId(req.pathname)]
    ensures !MethodAllowed(req.httpMethod) ==> r == Failure(METHOD_NOT_ALLOWED)
    ensures (MethodAllowed(req.httpMethod) && RepoId(req.pathname) !in registry) ==>
      r == Failure(UNKNOWN_REPO)
    ensures (MethodAllowed(req.httpMethod) && RepoId(req.pathname) in registry
             && req.hookSecret != Some(registry[RepoId(req.pathname)].secret)) ==>
      r == Failure(FORBIDDEN)
  {
    if !MethodAllowed(req.httpMethod) then Failure(METHOD_NOT_ALLOWED)
    else
      match Lookup(registry, RepoId(req.pathname))
      case None => Failure(UNKNOWN_REPO)
      case Some(repo) =>
        if !SecretMatches(req.hookSecret, repo.secret) then Failure(FORBIDDEN)
        else Success(repo)
  }

  /**
   * The request handler. `spawn` runs an argument vector to completion and
   * reports its exit code; the outcome records each vector it was given.
   */
  function Handle(registry: Registry, req: Request, spawn: Argv -> ExitCode): (o: Outcome)
    ensures |o.spawned| <= 1
    ensures !MethodAllowed(req.httpMethod) ==> o == Outcome(METHOD_NOT_ALLOWED, [])
    ensures (MethodAllowed(req.httpMethod) && RepoId(req.pathname) !in registry) ==>
      o == Outcome(UNKNOWN_REPO, [])
    ensures (MethodAllowed(req.httpMethod) && RepoId(req.pathname) in registry
             && req.hookSecret != Some(registry[RepoId(req.pathname)].secret)) ==>
      o == Outcome(FORBIDDEN, [])
    ensures |o.spawned| == 1 <==> Authorized(registry, req)
    ensures Authorized(registry, req) ==>
      var argv := DeployArgv(registry[RepoId(req.pathname)]);
      && o.spawned == [argv]
      && o.response == (if spawn(argv) == Some(0) then DEPLOYED else DEPLOY_FAILED)
  {
    match Authorize(registry, req)
    case Failure(rejection) => Outcome(rejection, [])
    case Success(repo) =>
      var argv := DeployArgv(repo);
      Outcome(ExitResponse(spawn(argv)), [argv])
  }
}
