# Deploy hook: a model of the webhook request handler

The deploy hook is a small HTTP service. A source-control host POSTs to
`/<repository-id>`. The service looks the identifier up in a registry of
repositories. It checks the `x-hook-secret` header against that repository's
secret. It then runs one shell command, `cd <path> && <cmd>`, and answers 200
`ok` or 500 `deploy failed` depending on the exit code.

This project models the request handler (the `fetch` callback of `deploy.ts`)
as pure Dafny functions:

- `wrappers.dfy` defines `Option` (an absent header, an absent exit code) and
  `Result` (the matched entry, or the response of the guard that rejected).
- `deploy.dfy`, module `DeployHook`, holds the registry (`map<string, Repo>`
  with `Repo = (secret, path, cmd)`) and the request (method, URL pathname,
  optional header value). It also defines each guard, the argument vector
  built for the spawner, the exit-code-to-response mapping, and the handler
  `Handle`.
- `deploy_properties.dfy`, module `DeployHookProperties`, holds the
  properties that relate several calls. These are an inverse of the shell
  line, what the outcome may depend on, the status codes, and the guard order
  on concrete requests.

Running a process is an oracle. `Handle` takes a function `spawn` from an
argument vector to an exit code. The outcome records the response and the
list of argument vectors handed to `spawn`, so the model can state that no
command runs unless every guard passes, and that exactly one runs when they
all pass. The handler keeps no state between requests. Because it is a
function, identical inputs and spawner give an identical outcome.

The exit code is `Option<int>`. `None` stands for a process that ended without
a numeric exit code, for example one killed by a signal. The source tests
`exitCode === 0`, so that case answers 500 like every non-zero code.

`deploy.ts` compares one plain header to the stored secret, runs the command
synchronously and keeps no status. The model adds no signature check, branch
filter or status store.

## Model

| member | source | states |
|---|---|---|
| `DeployHook.RepoId` | deploy.ts:15 | the identifier is the pathname with its first character removed (the pathname is that character followed by the identifier); an empty pathname gives the empty identifier, as `slice(1)` does |
| `DeployHook.Lookup` | deploy.ts:16-17 | an entry is found exactly when the identifier is a key of the registry, and it is that key's entry |
| `DeployHook.SecretMatches` | deploy.ts:19 | the header passes exactly when it is present and equal to the secret; an absent header never passes |
| `DeployHookProperties.MethodGuardCaseSensitive` | deploy.ts:13 | the method guard passes exactly for `POST`, compared case-sensitively: `post`, `Post` and `PUT` fail |
| `DeployHook.ShellLine` | deploy.ts:22 | the shell line is `cd `, then the path, then ` && `, then the command, each at its own position and nothing else |
| `DeployHook.DeployArgv` | deploy.ts:21-22 | the spawned argument vector has exactly three elements, `sh`, `-c` and `cd <path> && <cmd>` |
| `DeployHook.ExitResponse` | deploy.ts:27 | the response is either 200 `ok` or 500 `deploy failed`, and it is 200 exactly when the exit code is 0 |
| `DeployHook.Authorize` | deploy.ts:13-19 | the guards pass exactly when the request is a POST to a registered identifier carrying that entry's secret, and then yield that entry; otherwise the first failing guard in the order method, repository, secret picks 405, 404 or 403 |
| `DeployHook.Handle` | deploy.ts:12-28 | at most one command is spawned; a non-POST gives 405, a POST to an unknown identifier 404, and a wrong or missing secret 403, each with nothing spawned; a command is spawned exactly when every guard passes, and then its argument vector is the entry's, and the response is 200 `ok` if it exited with 0 and 500 `deploy failed` otherwise |
| `DeployHookProperties.FirstAmp` | deploy.ts:22 | the index of the first `&` of a string: no `&` before it, and a `&` at it unless it is the length |
| `DeployHookProperties.ParseShellLine` | deploy.ts:22 | reading a shell line back gives a path and a command that rebuild that line, with a path free of `&` |
| `DeployHookProperties.ShellLineRoundTrip` | deploy.ts:22 | parsing the shell line of a path and a command returns that path and command exactly when the path holds no `&` |
| `DeployHookProperties.ShellLineAmbiguous` | deploy.ts:22 | for every path, middle part and command, moving a ` && ` from the end of the path to the start of the command leaves the shell line unchanged |
| `DeployHookProperties.OnlyMatchedEntryMatters` | deploy.ts:16 | two registries that agree on the requested identifier give the same outcome |
| `DeployHookProperties.OnlyExitZeroMatters` | deploy.ts:27 | two spawners that agree on which argument vectors exit with 0 give the same outcome |
| `DeployHookProperties.StatusCodes` | deploy.ts:13-27 | the status is one of 200, 403, 404, 405 and 500, and it is 200 exactly when every guard passes and the deployment exits with 0 |
| `DeployHookProperties.RepoIdExamples` | deploy.ts:15 | `/app` gives `app`, `/` and the empty pathname give the empty identifier, and `/` followed by any identifier gives that identifier |
| `DeployHookProperties.GuardOrderExamples` | deploy.ts:13-22 | a GET to an unknown repository and a lower-case `post` give 405; a POST to an unknown repository with a wrong secret gives 404, not 403; a wrong secret, the secret in the wrong letter case and a missing header each give 403 with nothing spawned; the right secret spawns exactly `sh -c "cd /srv/app && git pull"` |

## Left out

- The HTTP server and its port binding (`serve`, port 6061, deploy.ts:10-11). This is I/O. The model starts from the request's method, URL pathname and header value.
- URL parsing and header retrieval (`new URL(...).pathname`, `headers.get`). The model takes the pathname and the header value as inputs. It does not model percent-encoding, case-insensitive header names or the joining of repeated headers. The header value is the one left after HTTP has removed its leading and trailing whitespace, so a client that sends the secret with surrounding spaces still matches.
- Running the process (`Bun.spawnSync`, deploy.ts:21-25), including `sh` and `cd` semantics, the inherited stdout and stderr, and a spawn that fails to start. These are foreign process calls. The model keeps only the argument vector and an exit code supplied by the `spawn` oracle.
- The shell-injection behaviour of an unescaped `path` or `cmd`. The model states only what string is built. `ShellLineAmbiguous` shows that the string alone does not always determine the entry.
- Loading `deploy.config.json` (deploy.ts:2). That file is not part of this model. The registry is a given map, and its entries are assumed to have string fields.
- JavaScript object lookup quirks, such as inherited keys like `constructor` resolving on a plain object (deploy.ts:16). The registry is a true finite map. Every entry in it is an object, so the `!repo` test fails exactly for a missing key.
- The timing behaviour of the `!==` secret comparison (deploy.ts:19). It cannot be stated in this model, which keeps only the comparison's equality semantics.
- Strings are sequences of Dafny characters. JavaScript strings are sequences of UTF-16 code units, and this model does not distinguish the two.
- `ecosystem.config.js`: a process-supervisor configuration with no logic.
