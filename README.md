# Spellbook trust boundary, modelled in Dafny

Spellbook is a localhost service that lets a browser viewer run code blocks
found in local Markdown files. What keeps it from being a remote code runner
is a small core, modelled here:

- **Token store** (`auth.dfy`, backend/src/auth.rs): a table from random
  nonzero 64-bit ids to the path and time each token was issued for. Viewing
  a file issues a token; running code checks the token against the file's
  path. Both operations first prune entries older than one hour.
- **Runner registry and staging** (`run.dfy`, backend/src/run.rs): a table
  from language to runner (command template, file extension). Running code
  writes it to `<tmp>/spellbook/<hash>.<ext>` and tries to start the runner's command
  with every `__FILE__` replaced by that path, in the source file's directory.
- **Request handlers** (`requests.dfy`, backend/src/requests.rs): the viewer
  page with its freshly issued token, and the decision chain of `run_code`:
  decode the body, parse the token, ask the token store, re-read the file,
  require the code to be a verbatim substring of it, run it. Each early exit
  gives its own status (400, 401, 500).
- **Routing** (`routes.dfy`, backend/src/main.rs): the route table of
  `process_request`, including the `.md`-only gate on `/api/file/`.

Supporting modules: `common.dfy` (Option, Result, `uint64`), `text.dfy`
(`starts_with`, `ends_with`, `contains`, `replace`, `split`/`join`),
`numbers.dfy` (decimal printing and Rust's `u64` parsing with its three
error kinds) and `fs.dfy` (the files and directories the core reads and
writes, as a class whose operations succeed or fail as the caller says).
The file system holds every readable file with its bytes, and marks the
subset whose contents are valid UTF-8: `std::fs::read` serves any readable
file, `read_to_string` only the UTF-8 ones. Every string of the model
(request fields, paths, file contents, pages, response bodies) holds the
UTF-8 bytes of its text, one character per byte, so a file's contents, the
code in a request and the staged file compare byte for byte, as Rust's
`str::contains` and `fs::write` do.

The shared `TOKENS` and `RUNNERS` maps are the fields of two classes,
`Auth.TokenStore` and `Run.RunnerRegistry`. Their methods are proved against
specification functions (`Auth.Pruned`, `Auth.Authorized`, `Run.Installed`,
`Requests.RunCodeDecision`), and the properties are proved as lemmas about
those functions. `Requests.HandleRunCode` wires the store, the registry and
the file system together. It proves that a process is started only for code
that the file contained verbatim, under a token the store accepted for that
file's path.

The clock (`Instant::now`) is a `nat` in nanoseconds, passed in as `now`.
`rand::random` is a sequence of candidate ids. `DefaultHasher`,
`Path::parent`, percent-decoding and `fs::metadata(..).is_file()` are
function parameters. Process exit status and file-system failures are
values passed in.

The model follows the code, with two exceptions, both listed under Findings.
`Auth.IsUpToDate` (and so `Auth.Pruned` and `Auth.TokenStore`) uses the
evidently intended freshness test, not the saturating subtraction written at
backend/src/auth.rs:52, which `Auth.IsUpToDateAsWritten` models. And
`Requests.Unauthorized` and `Requests.BadRequest` send a terminated, escaped
JSON body, not the one written at backend/src/requests.rs:134 and 146,
which `Requests.ErrorBodyAsWritten` models. Some consequences of the code
that are easy to miss: an unreadable source file is answered 400, not 500
(backend/src/requests.rs:80-83); a token that fails to parse is answered 400
with Rust's own parse message (backend/src/requests.rs:64-67); and a request
for an unknown language passes every check and then gets 500
(backend/src/run.rs:18-21).

## Model

| member | source | states |
|---|---|---|
| `Auth.IsUpToDate` | backend/src/auth.rs:51-53 | a token is fresh exactly when `now` lies in [issued, issued + ttl); a zero lifetime admits nothing |
| `Auth.IsUpToDateAsWritten` | backend/src/auth.rs:51-53 | as written, a token issued at or before `now` passes whatever its age, for any nonzero lifetime |
| `Auth.Authorized` | backend/src/auth.rs:27-38 | an accepted id is nonzero, in the table, and bound to exactly the path asked about |
| `Auth.AuthorizedAsWritten` | backend/src/auth.rs:27-38 | the same scoping holds with the freshness test as written: an accepted id is nonzero, in the table and bound to that path |
| `Auth.PrunedAsWritten` | backend/src/auth.rs:55-57 | a prune as written keeps a subset of the entries, each unchanged |
| `Auth.Pruned` | backend/src/auth.rs:55-57 | after a prune, every entry left is fresh and unchanged, and every fresh entry is kept |
| `Auth.AuthorizedIff` | backend/src/auth.rs:27-38 | a check accepts exactly a nonzero id that is in the table, bound to exactly that path, and issued less than an hour ago; pruning first never changes the answer |
| `Auth.PathScoped` | backend/src/auth.rs:37 | a token accepted for one path is refused for every other path |
| `Auth.CheckIsRepeatable` | backend/src/auth.rs:33-37 | a check does not consume the token: the same question on the table it leaves gets the same answer, and prune is idempotent |
| `Auth.TokenLifetime` | backend/src/auth.rs:8-40 | a token issued for a path at time T is accepted for that path exactly while T <= now < T + 1 h, and never for another path |
| `Auth.PruneForgetsExpired` | backend/src/auth.rs:55-57 | once every entry is an hour old, the next prune empties the table |
| `Auth.AsWrittenNothingExpires` | backend/src/auth.rs:51-53 | with the subtraction as written, a prune removes nothing and every stored token stays valid for its path |
| `Auth.ExpiredTokenAcceptedAsWritten` | backend/src/auth.rs:51-53 | a token issued at 0 and presented two hours later is accepted as written, and refused by the intended check |
| `Auth.DrawId` | backend/src/auth.rs:13-24 | the retry loop returns the first candidate that is nonzero and not in use |
| `Auth.TokenStore.constructor` | backend/src/auth.rs:47-49 | the table starts empty |
| `Auth.TokenStore.Prune` | backend/src/auth.rs:55-57 | the table becomes its pruned self; id 0 stays absent |
| `Auth.TokenStore.Authorize` | backend/src/auth.rs:8-25 | returns a nonzero id absent after pruning; the new table is the pruned table plus that id bound to (path, now) |
| `Auth.TokenStore.IsAuthorized` | backend/src/auth.rs:27-38 | id 0 is refused with the table untouched; otherwise the table is pruned and the answer is `Authorized`; an accepted token stays in the table |
| `Text.Contains` | backend/src/requests.rs:85 | a match needs the needle to fit in the haystack, and a haystack that starts with the needle contains it |
| `Text.ContainsIff` | backend/src/requests.rs:85 | the substring test holds exactly when the code occurs at some position of the file contents |
| `Text.ReplaceAll` | backend/src/run.rs:41 | replacing a pattern by a string of the same length keeps the length |
| `Text.ReplaceAllMeaning` | backend/src/run.rs:41 | replace cuts the input at every leftmost non-overlapping occurrence into pieces free of the pattern and glues them with the replacement; glued with the pattern they give the input back |
| `Numbers.ParseUint64` | backend/src/requests.rs:64-67 | the empty string is the only `Empty` error; a leading `-` is an invalid digit; a successful parse had a nonempty run of digits after at most one `+` |
| `Numbers.DecimalRoundTrip` | backend/src/requests.rs:64 | every u64 printed in decimal parses back to itself with Rust's u64 parser |
| `Run.Installed` | backend/src/run.rs:10-16 | after installing a list, the registry's languages are the old ones plus every language in the list |
| `Run.InstallLastWins` | backend/src/run.rs:10-16 | after installing a list, each language maps to the last runner in the list with that language |
| `Run.InstallKeepsOthers` | backend/src/run.rs:10-16 | languages not in the list keep their entry, or stay absent |
| `Run.RunnerRegistry.constructor` | backend/src/run.rs:59-61 | the registry starts empty |
| `Run.RunnerRegistry.InstallRunners` | backend/src/run.rs:10-16 | the loop leaves the registry equal to `Installed(old registry, list)`, keeping every runner under its own language |
| `Run.StagedPath` | backend/src/run.rs:30-35 | the staged file lies directly under `<tmp>/spellbook/` and ends in `.<extension>` |
| `Run.StagedPathIff` | backend/src/run.rs:23-35 | two runs with one extension share a staged file exactly when their hashes agree, so identical (language, code) pairs always share it |
| `Run.Argv` | backend/src/run.rs:41 | argv has one entry per command template, in order |
| `Run.ArgvMeaning` | backend/src/run.rs:41 | each argument is its template with every leftmost non-overlapping `__FILE__` replaced by the staged path; templates without `__FILE__` pass unchanged |
| `Run.Launch` | backend/src/run.rs:41-47 | the program is argv[0] and the arguments are the rest of argv, in order, in the given working directory |
| `Run.RunnerRegistry.RunCode` | backend/src/run.rs:18-50 | unknown language: false, nothing staged; otherwise the scratch dir is created, the staged file holds exactly the code, and the process runs; any failed step or unsuccessful exit gives false |
| `Requests.ServeBytes` | backend/src/requests.rs:12-28 | 200 with the content and type; the long immutable cache header iff `cache`, `max-age=0` otherwise |
| `Requests.ServeFile` | backend/src/requests.rs:30-35 | the file's bytes, text or binary, when it is readable; 500 with an empty body otherwise |
| `Requests.ErrorBodyAsWritten` | backend/src/requests.rs:130-148 | the body as written is the prefix, the message and a closing quote, and nothing after it: the object is never closed |
| `Requests.ErrorBodyAsWrittenUnreadable` | backend/src/requests.rs:130-148 | the body as written is the prefix, the raw message and a quote, and no message yields a readable `{"error_message": ...}` object |
| `Requests.JsonErrorBodyRoundTrip` | backend/src/requests.rs:130-148 | the corrected body reads back as exactly the message sent, whatever it contains |
| `Requests.Unauthorized` | backend/src/requests.rs:130-136 | status 401 with a body that reads back as the message |
| `Requests.BadRequest` | backend/src/requests.rs:138-148 | status 400, JSON content type, with a body that reads back as the message |
| `Requests.TokenLiteralRoundTrip` | backend/src/requests.rs:42-43 | the quoted decimal token written into the page parses back to the issued id |
| `Requests.PatchToken` | backend/src/requests.rs:43 | the patched page is the page cut at its placeholders and glued with the quoted token |
| `Requests.PatchTokenMeaning` | backend/src/requests.rs:43 | every leftmost non-overlapping `__TOKEN__` in the page is replaced by the quoted token, and a page without it is served unchanged |
| `Requests.ServeIndexHtmlPage` | backend/src/requests.rs:37-45 | no template: 500 and no token issued; otherwise a fresh token is issued for the path and patched into the uncached page |
| `Requests.RunCodeDecision` | backend/src/requests.rs:54-110 | the status is one of 200, 400, 401 and 500; a run is requested only for a decoded body under an accepted token with a readable file; 200 only when a run was requested and succeeded |
| `Requests.RunsOnlyVerifiedCode` | backend/src/requests.rs:54-110 | a run is requested only after the token parsed and was accepted for the request's path and the freshly read file contained the code verbatim; it runs that code in the file's parent directory (or the path itself when it has none) |
| `Requests.VerifiedCodeRuns` | backend/src/requests.rs:85-109 | a verified request is always run; 200 with an empty body if the run succeeds, 500 otherwise |
| `Requests.StatusMeaning` | backend/src/requests.rs:54-110 | 400 iff the body or token does not parse or the file is unreadable; 401 iff the token is refused or the code is gone; 500 iff the body was not received or the run failed; 200 iff the run succeeded |
| `Requests.EarlyRejectionsStop` | backend/src/requests.rs:59-83 | a body or token that does not parse reaches neither the store nor the file; a refused token does not get the file read |
| `Requests.HandleRunCode` | backend/src/requests.rs:54-110 | against the store, registry and file system the response is `RunCodeDecision`'s; a start is attempted exactly when the token is accepted for the path, the file is readable text containing the code, the language has a runner and the scratch directory and staged file are written; it is the runner's command on `<tmp>/spellbook/<hash>.<ext>` in the file's directory (a start that fails is answered 500), that file then holds the code, and the scratch directory exists exactly when staging got that far; the token table is pruned exactly when the token parsed to a nonzero id |
| `Requests.CheckAndRun` | backend/src/requests.rs:69-109 | after a token parsed: the response is `RunCodeDecision`'s, the table is pruned iff the id is nonzero, a start is attempted exactly when the token is accepted, the file contains the code, a runner exists and staging succeeds, and the attempt is of the staged code in the file's directory |
| `Requests.ReadAndRun` | backend/src/requests.rs:80-109 | after the token is accepted: an unreadable file gives 400, code not in the file 401; a start is attempted exactly when the file is readable text containing the code, a runner exists and staging succeeds, and the attempt is of the staged code in the file's directory |
| `Requests.RunVerified` | backend/src/requests.rs:97-109 | verified code: 200 iff the run succeeds, 500 otherwise; a start is attempted exactly when the language has a runner and the directory and file writes succeed; the attempt is the runner's command on the staged file, which holds exactly the code; the scratch directory is added exactly when a runner exists and its creation succeeds |
| `Routes.Route` | backend/src/main.rs:25-55 | code runs only for a POST to `/api/run`; an uncached file is always an existing `.md` file; any other method is not found |
| `Routes.RunOnlyFromPostApiRun` | backend/src/main.rs:51-54 | code is run exactly for a POST to `/api/run`; every other POST is not found |
| `Routes.FixedAssets` | backend/src/main.rs:26-27 | `/favicon.ico` and `/page.js` are served from fixed files, cached |
| `Routes.FontAssets` | backend/src/main.rs:28-32 | a `/fontawesome/` path is served, cached, from `"pages/" + path`, as `text/css` iff it ends in `.css` and `font/ttf` otherwise |
| `Routes.ViewerPage` | backend/src/main.rs:33-37 | `/file/<p>` serves the viewer page for the decoded `p` |
| `Routes.MarkdownGate` | backend/src/main.rs:38-50 | `/api/file/<p>` is served, uncached, exactly when the decoded `p` is a regular file ending in `.md`; otherwise not found |
| `Routes.OnlyListedRoutes` | backend/src/main.rs:25-55 | every request outside the table is not found |
| `Routes.ServedFiles` | backend/src/main.rs:25-55 | the only files served are the two fixed assets, paths starting `pages//fontawesome/` (which may contain `..` segments), and existing `.md` files |

## Left out

- The hyper/tokio server loop, the TCP listener, spawned connection tasks and the loopback check (backend/src/main.rs:93-131) are concurrency and network I/O.
- The command line (clap) and the browser launch (`open::that`, backend/src/main.rs:58-91) are OS integration.
- backend/src/config.rs is not part of this model: it only reads and decodes the configuration file. The runner list it yields is the input of `InstallRunners`.
- The locks (`Mutex`, `lazy_static`) are left out. The two tables are class fields, and every operation runs alone, with the clock read as part of it. So the model does not capture the race between the provenance read and the run, concurrent writes of one staged file, or a `now` read before the lock (auth.rs:9-10, 32-33) that is earlier than the stamp of a token another task just stored.
- Logging (`println!`) and the CORS headers (`Access-Control-Allow-*`) are not modelled. Response-builder failures (requests.rs:27, 147) cannot happen with the constant headers used, so they are not modelled.
- JSON decoding of the request body and reading the whole body are inputs (`Body`). The decoder's error message is taken as given.
- `std::fs::read` fails exactly when a path is not among the readable files, and `read_to_string` also when the file is not valid UTF-8. The reason a file is unreadable (missing, a directory, no permission) is not modelled.
- `create_dir_all` either creates the scratch directory or changes nothing. A partial creation is not modelled.
- The started process is represented by its exit status; its output and its effects are not modelled.
- Auth.TokenStore.Authorize: requires the candidate sequence to contain a usable id. The source retries `rand::random` forever, so the model does not cover a random source that never yields one.
- Run.RunnerRegistry.InstallRunners: requires every runner to have a nonempty command. The source panics at run.rs:43 when a runner's command is empty, and the model does not cover that panic.
- Auth.IsUpToDate: states the intended freshness test, not the one written at auth.rs:52 (see Findings). `Auth.IsUpToDateAsWritten` models the written one. The intended test also refuses a token stamped after `now`, which the saturating `now - token.timestamp` would accept. Such a token arises when a check reads the clock before taking the lock (auth.rs:32-33) while another task stores a newer token; there the model refuses, and prunes, a token the source keeps.
- Requests.Unauthorized and Requests.BadRequest: send the corrected JSON error body, not the unterminated one written at requests.rs:134 and 146 (see Findings). `Requests.ErrorBodyAsWritten` models the written one.

## Findings

| source | as written | input that shows it | evidently intended | confidence | as-written member | corrected member |
|---|---|---|---|---|---|---|
| backend/src/auth.rs:52 | `token.timestamp - now < older_than`; the `Instant` difference saturates to zero, so every token is fresh forever and `prune` removes nothing | token issued at time 0 for `/tmp/doc.md`, checked two hours later for the same path: accepted | `now - token.timestamp < older_than`: tokens expire after one hour and are pruned (the model's test also refuses a token stamped after `now`; see Left out) | high; not executed | `Auth.ExpiredTokenAcceptedAsWritten` | `Auth.TokenLifetime` |
| backend/src/requests.rs:134 | error body `{"error_message":"<msg>"`: no closing brace, message not escaped | message `x` gives `{"error_message":"x"`; a Windows path such as `C:\docs\a.md` in the unreadable-file message gives invalid escapes | `{"error_message":"<msg escaped>"}`, a JSON object | high; not executed | `Requests.ErrorBodyAsWrittenUnreadable` | `Requests.JsonErrorBodyRoundTrip` |
