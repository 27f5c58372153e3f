# Fan-out command execution: a Dafny model

This project models the core of a dashboard that runs one shell command on many
registered machines at once. It covers three pieces of logic.

- **Rendering a target's command** (module `Render`). The target's password is
  escaped for POSIX single quoting: every `'` becomes `'\''`. The escaped
  password then replaces every `{{PASSWORD}}` of the command template. The
  runner does the substitution with ECMAScript `String.prototype.replace`
  and a replacement *string*, and this model includes the special
  replacement patterns (`$$`, `$&`, `` $` ``, `$'`) that such a string
  obeys (ECMA-262, 2024 edition, section 22.1.3.19.1). Shell reading of the
  result follows IEEE Std 1003.1-2017, Shell Command Language, sections
  2.2.1 (Escape Character) and 2.2.2 (Single-Quotes).
- **One remote-shell session** (module `SshSession`). The connection's
  `ready` and `error` handlers and the command stream's `data`, stderr
  `data` and `close` handlers are methods of the class `Session`. Each
  method appends what its handler does to the session's log: `onOutput`
  calls, `onError` calls, `conn.exec`, `conn.end`. It also settles the
  session's one-shot promise if nothing settled it before. A ghost trace of
  the delivered transport events ties the state to definitions over that
  trace, and the lemmas prove the session protocol from them.
- **The execution worker's job handler** (module `ExecutionWorker`). Given
  the target lookup and what the runner did, it broadcasts on a channel
  (`Channel`, a log of sent events): `running`, one `output` event per
  runner callback, and one terminal `success` or `error`. It then completes
  or fails the job.
- **The dashboard's environment store** (module `EnvStore`). The class
  `Store` holds `environments`, `selectedEnvId` and `isLoading`. Its
  methods are the store's actions, each applied when its request returns.
  What the request returned is an input of the method.

Four behaviours of the code are worth stating, because a reader could easily
expect otherwise:
- The worker broadcasts `running` before the runner connects, not after the
  connection comes up.
- A missing target broadcasts no status at all. The job only fails.
- A connection error does not call `conn.end()`.
- The stream's exit code never makes a session fail: a close always resolves.

## Model

| member | source | states |
|---|---|---|
| `Render.Substitution` | api/services/sshService.ts:14 | ECMAScript GetSubstitution with no capture groups; a replacement string containing no `$` is inserted exactly as given |
| `Render.ReplaceAllFrom` | api/services/sshService.ts:14 | a global `replace` scanning from a position where the pattern occurs nowhere from that position on copies the rest of the text unchanged |
| `Render.ReplaceAllFromLeftmost` | api/services/sshService.ts:14 | for any replacement string, `$` patterns included, the scan copies the text up to the first match, puts the substitution there and resumes after the match: matches are taken left to right and do not overlap |
| `Render.ReplaceAllFromCopiesPrefix` | api/services/sshService.ts:14 | text before the first match at or after a position is copied unchanged |
| `Render.ReplaceAll` | api/services/sshService.ts:13-14 | a global `replace` whose replacement string has no `$` inserts that text literally at every match; the escape's `'\''` is such a replacement, and so is `safePassword` when the password has no `$` |
| `Render.ReplaceAllIsLiteral` | api/services/sshService.ts:14 | a global `replace` whose replacement string has no `$` is the same as inserting that text literally at every match |
| `Render.ReplaceLiteralNoOccurrence` | api/services/sshService.ts:14 | a template with no `{{PASSWORD}}` (no occurrence of the pattern) comes back unchanged |
| `Render.ReplaceLiteralLeftmost` | api/services/sshService.ts:14 | occurrences are replaced left to right and do not overlap: text before the first match stays, the inserted text is not scanned again, and the rest is replaced on its own |
| `Render.ReplaceQuoteIsQuoteEach` | api/services/sshService.ts:13 | replacing every `'` by `'\''` literally is the reference per-character escape |
| `Render.Escape` | api/services/sshService.ts:13 | `p.replace(/'/g, "'\\''")` is the reference escape: each `'` becomes `'\''` and every other character stays, in place |
| `Render.QuoteEachLength` | api/services/sshService.ts:13 | the escape's length is the password's length plus three per single quote |
| `Render.EscapeLength` | api/services/sshService.ts:13 | `len(escape(p)) = len(p) + 3 * count(p, "'")` for the runner's own `replace` |
| `Render.QuoteEachKeepsCharacters` | api/services/sshService.ts:13 | apart from `'` and `\`, a character occurs in the escape exactly when it occurs in the password; in particular the escape adds no `$` |
| `Render.SafePassword` | api/services/sshService.ts:13 | `safePassword` is the reference escape of the password, or of "" when there is none, and is three characters longer per single quote |
| `Render.PasswordOrEmpty` | api/services/sshService.ts:13 | `vm.password \|\| ''` is "" exactly for an absent or empty password, and the password otherwise |
| `Render.MissingPassword` | api/services/sshService.ts:13 | an absent password, like an empty one, renders as the empty string |
| `Render.RenderCommand` | api/services/sshService.ts:14 | the verbatim rendering: a template that is only the placeholder becomes the escaped password, and a template without the placeholder is left unchanged |
| `Render.RenderCommandAsWritten` | api/services/sshService.ts:13-14 | the runner's `command.replace(/{{PASSWORD}}/g, safePassword)`; when the password has no `$` it equals the verbatim rendering |
| `Render.DollarAmpersandIsNotLiteral` | api/services/sshService.ts:14 | the runner renders password `a$&b` into `{{PASSWORD}}` as `a{{PASSWORD}}b`; the verbatim rendering gives `a$&b` |
| `Render.UnquoteQuoteEach` | api/services/sshService.ts:9-13 | inside an open single quote, the escape of `p` reads back as `p`, and the quote is open again afterward |
| `Render.QuotedRoundTrip` | api/services/sshService.ts:9-13 | the word `'` + escape(p) + `'` is quoted in every character, and the shell reads it as exactly `p` |
| `Render.RenderRoundTrip` | api/services/sshService.ts:9-14 | the template `'{{PASSWORD}}'` renders to a shell word whose value is the password, or "" when there is none; the runner's own rendering does the same for passwords without `$` |
| `Render.QuoteInPasswordExample` | api/services/sshService.ts:13 | the password `it's"me` escapes to `it'\''s"me` and reads back unchanged |
| `SshSession.NatToDecimal` | api/services/sshService.ts:27 | the exit code's rendering is a non-empty run of decimal digits, with no leading zero for a positive code |
| `SshSession.Label` | api/services/sshService.ts:17 | `vm.name \|\| vm.ip` is the name when it is non-empty and the address otherwise, and is empty only when both are |
| `SshSession.NatDecimalRoundTrip` | api/services/sshService.ts:27 | the decimal digits of a natural number read back as that number |
| `SshSession.IntToDecimal` | api/services/sshService.ts:27 | `${code}` of any integral code is non-empty and reads back as the code |
| `SshSession.ClosedLineDeterminesCode` | api/services/sshService.ts:27 | two close lines of one session are equal only for equal exit codes |
| `SshSession.Emit` | api/services/sshService.ts:16-38 | each handler except the exec callback's success path reports one line first; only `ready` runs the command; only an exec failure and a close call `conn.end()`; a resolving handler reports on `onOutput` and a rejecting one on `onError` |
| `SshSession.Session.constructor` | api/services/sshService.ts:5-14 | a new session prefixes its lines with `name` when non-empty, else `ip`; it holds the rendered command; it is connecting with an empty log and a pending promise |
| `SshSession.Session.OnReady` | api/services/sshService.ts:16-18 | `ready` appends `onOutput("[label] Connected.\n")`, then `exec` of the rendered command; the promise is untouched |
| `SshSession.Session.OnExecStarted` | api/services/sshService.ts:18-26 | an exec without error only registers the stream's handlers: nothing is output and the promise is untouched |
| `SshSession.Session.OnExecFailed` | api/services/sshService.ts:19-24 | an exec error appends `onError("[label] Error: msg\n")`, then `conn.end()`, and rejects with the message unless already settled |
| `SshSession.Session.OnStdout` | api/services/sshService.ts:30-31 | a stdout chunk appends `onOutput("[label] STDOUT: " + chunk)` and nothing else |
| `SshSession.Session.OnStderr` | api/services/sshService.ts:32-33 | a stderr chunk appends `onError("[label] STDERR: " + chunk)` and nothing else |
| `SshSession.Session.OnClose` | api/services/sshService.ts:26-29 | close appends `onOutput("[label] Connection closed (Code: c).\n")`, then `conn.end()`, and resolves for every code unless already settled |
| `SshSession.Session.OnConnectionError` | api/services/sshService.ts:36-38 | a connection error appends `onError("[label] Connection Error: msg\n")` and rejects unless already settled; no retry, no `conn.end()`, phase unchanged |
| `SshSession.LogOfAppend` | api/services/sshService.ts:16-38 | the handlers' actions over a trace are those of each part, in order |
| `SshSession.FirstSettlementAppend` | api/services/sshService.ts:22-38 | one more event settles the promise only while it is still pending |
| `SshSession.SettlesAtMostOnce` | api/services/sshService.ts:22-38 | once settled, no later event changes the promise: the first resolve or reject wins |
| `SshSession.SettledIff` | api/services/sshService.ts:22-38 | the promise is settled exactly when an exec failure, a close or a connection error was delivered |
| `SshSession.SettlementAt` | api/services/sshService.ts:19-38 | at its first settling event the promise resolves on close (any code) and rejects with the message on an exec or connection error |
| `SshSession.AcceptsPrefix` | api/services/sshService.ts:16-38 | every prefix of a deliverable trace is deliverable |
| `SshSession.ReadySeen` | api/services/sshService.ts:16-18 | only `ready` leaves the connecting phase |
| `SshSession.ReadyIsFirstCallback` | api/services/sshService.ts:16-17 | unless the connection failed first, the session's first action is `onOutput("[label] Connected.\n")` |
| `SshSession.ReadyLogsConnected` | api/services/sshService.ts:16-18 | a `ready` anywhere in a trace puts the connected line among its actions |
| `SshSession.ReadyBefore` | api/services/sshService.ts:16-34 | every exec outcome, chunk and close of a deliverable trace has a `ready` before it |
| `SshSession.ConnectedPrecedesStream` | api/services/sshService.ts:16-34 | the connected line comes before every exec outcome, stdout chunk, stderr chunk and close |
| `SshSession.FinishedAbsorbs` | api/services/sshService.ts:19-34 | after the exec failed or the stream closed, only connection errors can be delivered |
| `SshSession.NothingAfterFinish` | api/services/sshService.ts:19-34 | no chunk, close line or second exec outcome follows an exec failure or a close |
| `SshSession.ChunksRelayedInOrder` | api/services/sshService.ts:30-33 | chunks are relayed one action each in arrival order: stdout to `onOutput`, stderr to `onError` |
| `SshSession.EndIff` | api/services/sshService.ts:21-38 | `conn.end()` is called exactly when the exec failed or the stream closed |
| `SshSession.ClosePathScenario` | api/services/sshService.ts:16-34 | ready, exec, one stdout chunk, one stderr chunk and close give exactly these six actions and a resolved promise |
| `SshSession.ExecFailurePathScenario` | api/services/sshService.ts:16-38 | an exec failure gives the error line, `conn.end()` and a rejection; a later connection error adds a line and does not change the settled promise |
| `ExecutionWorker.Relay` | api/workers/executionWorker.ts:25-26 | each callback, `onOutput` or `onError` alike, becomes one `output` event carrying the target's id and the data unchanged, in order |
| `ExecutionWorker.TerminalStatus` | api/workers/executionWorker.ts:28-32 | the terminal status is `success` exactly when the runner resolved and `error` exactly when it rejected |
| `ExecutionWorker.JobEvents` | api/workers/executionWorker.ts:12-32 | a missing target broadcasts nothing; a found one broadcasts one event per runner callback plus two statuses |
| `ExecutionWorker.JobResult` | api/workers/executionWorker.ts:14-33 | the job fails exactly when the target is missing (with `VM not found: <id>`) or the runner rejected (rethrowing its message) |
| `ExecutionWorker.HandleJob` | api/workers/executionWorker.ts:10-35 | the handler appends exactly the job's events to the channel and ends the job as in `JobResult` |
| `ExecutionWorker.NotFoundBroadcastsNothing` | api/workers/executionWorker.ts:12-17 | a missing target broadcasts nothing, not even a status, and fails the job with `VM not found: <id>` |
| `ExecutionWorker.FoundJobWellOrdered` | api/workers/executionWorker.ts:19-32 | a found target's events are `running`, then only outputs, then a terminal status, all with its id |
| `ExecutionWorker.OutputsRelayed` | api/workers/executionWorker.ts:21-27 | the events between `running` and the terminal status are the runner's callbacks, in order and unchanged |
| `ExecutionWorker.ExactlyOneTerminal` | api/workers/executionWorker.ts:27-32 | a found job broadcasts exactly one terminal status, and nothing follows it |
| `ExecutionWorker.TerminalMatchesRunner` | api/workers/executionWorker.ts:27-32 | the terminal status is `success` iff the runner resolved and `error` iff it rejected |
| `ExecutionWorker.FailureIff` | api/workers/executionWorker.ts:14-33 | the job fails exactly when its target was missing or its status is `error` |
| `ExecutionWorker.PayloadId` | api/workers/executionWorker.ts:19-32 | every event of a job carries the fetched record's id |
| `ExecutionWorker.CallbacksOf` | api/workers/executionWorker.ts:21-26 | every `onOutput` and `onError` action of a session becomes a callback of the same kind and data, and every callback comes from such an action |
| `ExecutionWorker.CallbacksOfConcat` | api/workers/executionWorker.ts:21-26 | the callbacks keep the actions' order: those of a concatenated log are the first part's, then the second's |
| `ExecutionWorker.LateStreamAfterConnectionError` | api/services/sshService.ts:26-38 | a connection error can reject the promise while the stream is open; a stdout chunk that follows is still relayed by the session but is not in the job's run, which ends at the rejection |
| `ExecutionWorker.ConnectedLineFollowsRunning` | api/workers/executionWorker.ts:19-26 | for a session whose connection comes up, the job's events open with `running`, then the session's connected line |
| `ExecutionWorker.SessionSuccessIffClosedFirst` | api/workers/executionWorker.ts:21-28 | a session's promise resolves exactly when its first settling event is the stream's close, whatever the exit code |
| `EnvStore.FindById` | src/store/envStore.ts:40 | `find` returns the first environment of the list that has the id, and nothing exactly when no environment has it |
| `EnvStore.ReplaceById` | src/store/envStore.ts:72-74 | the update keeps length and order, replaces every environment with the id by the returned one, and leaves the rest unchanged |
| `EnvStore.RemoveById` | src/store/envStore.ts:86 | the delete never lengthens the list |
| `EnvStore.RemoveByIdMembers` | src/store/envStore.ts:86 | the delete keeps exactly the environments without the id |
| `EnvStore.RepairSelection` | src/store/envStore.ts:38-42 | after a fetch of a non-empty list the selection names a fetched environment: a selection the list holds is kept, otherwise it becomes `data[0].id`; with an empty list it is kept |
| `EnvStore.SelectionAfterDelete` | src/store/envStore.ts:87 | deleting an unselected id keeps the selection; deleting the selected one gives the first id of the list before the deletion, or "" when that list was empty |
| `EnvStore.Store.constructor` | src/store/envStore.ts:18-20 | the store starts with no environments, `env-dev` selected, and not loading |
| `EnvStore.Store.BeginFetch` | src/store/envStore.ts:22-26 | loading is raised only if the list is empty; nothing else changes |
| `EnvStore.Store.FinishFetch` | src/store/envStore.ts:28-47 | on success the list becomes the fetched data and the selection is repaired; on failure both stay; loading ends either way |
| `EnvStore.Store.AddEnvironment` | src/store/envStore.ts:50-62 | the created environment is appended after the untouched earlier ones; a failed request changes nothing |
| `EnvStore.Store.UpdateEnvironment` | src/store/envStore.ts:64-78 | the list becomes the replace-by-id of the returned environment; a failed request changes nothing |
| `EnvStore.Store.DeleteEnvironment` | src/store/envStore.ts:80-92 | the list is filtered by id; a deleted selection moves to the first id of the list as it was before the deletion, or ""; a failed request changes nothing |
| `EnvStore.Store.SelectEnvironment` | src/store/envStore.ts:94-96 | any id becomes the selection, unvalidated; nothing else changes |
| `EnvStore.RemoveByIdConcat` | src/store/envStore.ts:86 | the filter keeps order: filtering a concatenation is concatenating the filtered parts |
| `EnvStore.RemoveAbsentId` | src/store/envStore.ts:86 | deleting an id no environment has leaves the list unchanged |
| `EnvStore.UpdateAbsentId` | src/store/envStore.ts:73 | updating an id no environment has leaves the list unchanged |
| `EnvStore.FetchSelectsKnownEnvironment` | src/store/envStore.ts:39-42 | after fetching a non-empty list, `find` of the selection succeeds |
| `EnvStore.RepairIdempotent` | src/store/envStore.ts:39-42 | repairing the selection a second time changes nothing |
| `EnvStore.DeletingSelectedFirstKeepsIt` | src/store/envStore.ts:86-87 | deleting the selected first environment leaves its id selected although no environment has it any more |
| `EnvStore.DeletingSelectedOtherMovesToFirst` | src/store/envStore.ts:86-87 | deleting the selected environment, when another one is first, selects that first one, which remains |
| `EnvStore.DeletingUnselectedKeepsSelection` | src/store/envStore.ts:87 | deleting an environment that is not selected keeps the selection |
| `EnvStore.DeletingFromEmptyClearsSelection` | src/store/envStore.ts:87 | deleting the selected id from an empty list selects "" |
| `EnvStore.DeleteSelectedFirstScenario` | src/store/envStore.ts:22-88 | fetch `[a, b]` and delete `a`: `[b]` remains and `a`'s id is still selected |

## Findings

| source | as written | input that shows it | evidently intended | confidence | as-written member | corrected member |
|---|---|---|---|---|---|---|
| api/services/sshService.ts:14 | the escaped password is passed to `replace` as a replacement string, so `$$`, `$&`, `` $` `` and `$'` in it are replacement patterns | password `a$&b`, template `{{PASSWORD}}`: the command becomes `a{{PASSWORD}}b` | the password is inserted verbatim, as the comment at line 9 says ("actual VM password") | not executed; high | `Render.RenderCommandAsWritten`, shown by `Render.DollarAmpersandIsNotLiteral`; its scan for any password is `Render.ReplaceAllFromLeftmost` | `Render.RenderCommand`, proved by `Render.RenderRoundTrip`; equal to the as-written one for passwords without `$` (the contract of `Render.RenderCommandAsWritten`) |

`SshSession.Session` renders its command with `Render.RenderCommand`.

## Left out

- SshSession.Session.constructor: the session holds the verbatim rendering `Render.RenderCommand`, not line 14's `$`-interpreting `Render.RenderCommandAsWritten`. A password containing `$$`, `$&`, `` $` `` or `$'` makes the runner execute a different command from the one modelled (see Findings). For passwords without `$` the two are proved equal.

- The SSH transport itself is left out: the connect options (host, port, username, password) and the 20-second `readyTimeout`. Its events are the methods of `Session`, and the `Enabled` predicate says in which phase each can arrive. `ready` comes once, the exec callback once, and stream events only while the stream is open.
- ExecutionWorker.HandleJob: the runner trace it consumes always settles. There is no timeout on the remote command: the 20-second `readyTimeout` covers only the connection. So a command that never exits leaves the job at `running` with no terminal status, and that case is not modelled.
- Decoding of `Buffer` chunks to text is left out: chunks are taken as strings.
- A `null` exit code (a process killed by a signal) is left out. So is JavaScript's exponent notation for numbers of 10^21 and above. Codes are integers.
- The `ExecutionWorker` consumes a runner trace that ends at the promise's settlement. A callback made after the settlement is left out of the job's events. Such callbacks come in two cases. After the exec failed or the stream closed, only a connection error can follow (`SshSession.NothingAfterFinish`). But a connection error that settles the promise first does not stop the session: the transport model still allows the events of the phase the session is in. After a connection error while connecting, these are `ready`'s Connected line and everything that follows it. After one while streaming, they are stdout and stderr chunks, the close line and its `conn.end()`. `ExecutionWorker.LateStreamAfterConnectionError` exhibits a stdout chunk that the session relays after such a rejection but the job's run does not contain. In the running system, all of these would appear as `output` events after the terminal `error` status.
- The queue library, Redis, and the `concurrency: 5` bound of the worker are left out. That bound is enforced by the library, not by code of this repository. So are the worker's `completed`/`failed` log handlers.
- Delivery of `broadcast` events to websocket clients is left out: `Channel` only records what was sent. The broadcast service is not part of this model.
- The target lookup (`vmService.getById`, a database query) is left out: the lookup result is an input of `HandleJob`. The `port || 22` default of the target records is applied by `vmService.add` (api/services/vmService.ts:103) when a target is added, so it is not part of this model.
- Logger calls, the rejection reason's `String(error)` for non-`Error` values, and timestamps are left out.
- The store's HTTP requests and JSON parsing are left out: each action takes the parsed reply, or `None` for a request that threw. The source never checks the HTTP status, so an error reply whose body parses is taken as data; the model's input is that body. A fetched body that is not a list of environments is left out. So is a reply to `addEnvironment` or `updateEnvironment` that parses but is not an environment, such as an error body `{error: …}`: the source appends it to the list or maps it in at src/store/envStore.ts:58 and :73, but `Store.AddEnvironment` and `Store.UpdateEnvironment` take an `Option<Environment>` and cannot express it.
- `addEnvironment`'s `name` only goes into the request body, so `Store.AddEnvironment` takes the server's reply instead.
- The `JSON.stringify` comparison before assigning the fetched list is left out: it only avoids a re-render and does not change the resulting state.
- Between `Store.BeginFetch` and `Store.FinishFetch`, other actions may run. The model allows this because the two are separate methods, and `FinishFetch` reads the state as it is then.
- `Render.Substitution`: its contract states only that a replacement without `$` is copied literally. What `$$`, `$&`, `` $` `` and `$'` produce is given by its definition and exhibited by `Render.DollarAmpersandIsNotLiteral`.
