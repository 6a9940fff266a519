/**
 * The request handlers of backend/src/requests.rs: response building, the
 * viewer page with its freshly issued token, and the decision chain that
 * guards code execution. A response is its status, its content type and
 * cache headers, and its body.
 */
module Requests {
  import opened Common
  import opened Text
  import opened Numbers
  import opened Fs
  import opened Auth
  import opened Run

  datatype Response = Response(status: nat, contentType: Option<string>, cacheControl: Option<string>, body: string)

  /** The cache header for assets that never change. */
  const LongCache: string := "public, max-age=31919000, immutable"
  /** The cache header for everything else. */
  const NoCache: string := "max-age=0"

  /** `serve_bytes`: 200 with the content, the given type, and the long cache header iff `cache`. */
  function ServeBytes(content: string, contentType: string, cache: bool): (r: Response)
    ensures r.status == 200 && r.body == content && r.contentType == Some(contentType)
    ensures r.cacheControl == Some(LongCache) <==> cache
    ensures r.cacheControl == Some(NoCache) <==> !cache
  {
    Response(200, Some(contentType), Some(if cache then LongCache else NoCache), content)
  }

  function InternalServerError(): Response {
    Response(500, None, None, [])
  }

  /** `serve_file`: the file's contents, or 500 when it cannot be read. */
  method ServeFile(fs: FileSystem, path: string, contentType: string, cache: bool) returns (r: Response)
    ensures path in fs.files ==> r == ServeBytes(fs.files[path], contentType, cache)
    ensures path !in fs.files ==> r.status == 500 && r.body == []
  {
    var contents := fs.Read(path);
    match contents
    case Some(c) => r := ServeBytes(c, contentType, cache);
    case None => r := InternalServerError();
  }

  // ---------------------------------------------------------------------
  // Error bodies

  /** The fixed start of an error body. */
  const ErrorBodyPrefix: string := "{\"error_message\":\""

  /**
   * The error body exactly as backend/src/requests.rs:134 and :146 format
   * it: the message is pasted in unescaped and the closing brace is missing.
   */
  function ErrorBodyAsWritten(message: string): (b: string)
    ensures StartsWith(b, ErrorBodyPrefix) && |b| == |ErrorBodyPrefix| + |message| + 1
    ensures b[|b| - 1] == '"'
  {
    ErrorBodyPrefix + message + "\""
  }

  predicate IsHex(c: char) {
    '0' <= c <= '9' || 'a' <= c <= 'f' || 'A' <= c <= 'F'
  }

  function HexValue(c: char): (v: nat)
    requires IsHex(c)
    ensures v < 16
  {
    if c <= '9' then c as int - '0' as int
    else if c <= 'F' then c as int - 'A' as int + 10
    else c as int - 'a' as int + 10
  }

  function HexDigit(d: nat): (c: char)
    requires d < 16
    ensures IsHex(c) && HexValue(c) == d
  {
    if d < 10 then ('0' as int + d) as char else ('a' as int + d - 10) as char
  }

  /** One character inside a JSON string literal (section 7 of RFC 8259). */
  function EscapeChar(c: char): string {
    if c == '"' then "\\\""
    else if c == '\\' then "\\\\"
    else if c < ' ' then "\\u00" + [HexDigit(c as int / 16), HexDigit(c as int % 16)]
    else [c]
  }

  /** The body of a JSON string literal holding `s`. */
  function JsonEscape(s: string): string
    decreases |s|
  {
    if |s| == 0 then [] else EscapeChar(s[0]) + JsonEscape(s[1..])
  }

  /** The error body as a JSON object `{"error_message": <message>}`. */
  function JsonErrorBody(message: string): string {
    ErrorBodyPrefix + JsonEscape(message) + "\"}"
  }

  function Prepend(c: char, parsed: Option<(string, string)>): Option<(string, string)> {
    match parsed
    case Some((value, rest)) => Some(([c] + value, rest))
    case None => None
  }

  /**
   * Reads the rest of a JSON string literal whose opening quote has been
   * consumed: returns the decoded text and what follows the closing quote.
   * Escapes are those of RFC 8259, with `\u` limited to `\u00XX`, which is
   * decoded to the UTF-8 bytes of that code point (two bytes from 0x80 on);
   * a raw control character or an unknown escape is an error.
   */
  function ReadJsonString(s: string): Option<(string, string)>
    decreases |s|
  {
    if |s| == 0 then None
    else if s[0] == '"' then Some(([], s[1..]))
    else if s[0] == '\\' then
      if |s| < 2 then None
      else if s[1] == '"' || s[1] == '\\' || s[1] == '/' then Prepend(s[1], ReadJsonString(s[2..]))
      else if s[1] == 'b' then Prepend('\U{8}', ReadJsonString(s[2..]))
      else if s[1] == 'f' then Prepend('\U{C}', ReadJsonString(s[2..]))
      else if s[1] == 'n' then Prepend('\n', ReadJsonString(s[2..]))
      else if s[1] == 'r' then Prepend('\r', ReadJsonString(s[2..]))
      else if s[1] == 't' then Prepend('\t', ReadJsonString(s[2..]))
      else if |s| >= 6 && s[1..4] == "u00" && IsHex(s[4]) && IsHex(s[5]) then
        var v := HexValue(s[4]) * 16 + HexValue(s[5]);
        if v < 0x80 then Prepend(v as char, ReadJsonString(s[6..]))
        else Prepend((0xC0 + v / 64) as char, Prepend((0x80 + v % 64) as char, ReadJsonString(s[6..])))
      else None
    else if s[0] < ' ' then None
    else Prepend(s[0], ReadJsonString(s[1..]))
  }

  /** What a client reading an error body as `{"error_message": <string>}` finds in it. */
  function ParseErrorBody(body: string): Option<string> {
    if !StartsWith(body, ErrorBodyPrefix) then None
    else
      match ReadJsonString(body[|ErrorBodyPrefix|..])
      case Some((message, rest)) => if rest == "}" then Some(message) else None
      case None => None
  }

  /** A control character's `\u00XX` escape reads back as that character. */
  lemma ReadControlEscape(c: char, tail: string)
    requires c < ' '
    ensures ReadJsonString(EscapeChar(c) + tail) == Prepend(c, ReadJsonString(tail))
  {
    var whole := EscapeChar(c) + tail;
    assert whole[1..4] == "u00";
    assert whole[6..] == tail;
    assert HexValue(whole[4]) * 16 + HexValue(whole[5]) == c as int;
  }

  /** Each escaped character reads back as itself. */
  lemma ReadEscapedChar(c: char, tail: string)
    ensures ReadJsonString(EscapeChar(c) + tail) == Prepend(c, ReadJsonString(tail))
  {
    var whole := EscapeChar(c) + tail;
    if c == '"' || c == '\\' {
      assert whole[2..] == tail;
    } else if c < ' ' {
      ReadControlEscape(c, tail);
    } else {
      assert whole[1..] == tail;
    }
  }

  /** The escaped text, the closing quote and anything after read back as the text and the rest. */
  lemma {:induction false} ReadJsonStringOfEscape(s: string, rest: string)
    ensures ReadJsonString(JsonEscape(s) + "\"" + rest) == Some((s, rest))
    decreases |s|
  {
    if |s| == 0 {
      assert JsonEscape(s) + "\"" + rest == "\"" + rest;
    } else {
      var tail := JsonEscape(s[1..]) + "\"" + rest;
      assert JsonEscape(s) + "\"" + rest == EscapeChar(s[0]) + tail;
      ReadJsonStringOfEscape(s[1..], rest);
      ReadEscapedChar(s[0], tail);
      assert s == [s[0]] + s[1..];
    }
  }

  /** Every message survives the corrected body: the client reads back exactly what was sent. */
  lemma JsonErrorBodyRoundTrip(message: string)
    ensures ParseErrorBody(JsonErrorBody(message)) == Some(message)
  {
    var body := JsonErrorBody(message);
    assert body[|ErrorBodyPrefix|..] == JsonEscape(message) + "\"" + "}";
    ReadJsonStringOfEscape(message, "}");
  }

  /** What follows a string literal is a proper suffix of the input. */
  lemma {:induction false} ReadJsonStringRest(s: string)
    ensures ReadJsonString(s).Some? ==>
      var rest := ReadJsonString(s).value.1;
      |rest| < |s| && s[|s| - |rest|..] == rest
    decreases |s|
  {
    if |s| > 0 && s[0] != '"' {
      if s[0] == '\\' && |s| >= 2 {
        ReadJsonStringRest(s[2..]);
        if |s| >= 6 {
          ReadJsonStringRest(s[6..]);
        }
      } else if s[0] != '\\' {
        ReadJsonStringRest(s[1..]);
      }
    }
  }

  /**
   * The error body as written is the object's opening prefix, the raw
   * message and a quote, and no client can read it as the intended JSON
   * object (the response declares `application/json` and the body opens
   * with `{`), for any message: it ends in `"` where the object must end
   * in `}`.
   */
  lemma ErrorBodyAsWrittenUnreadable(message: string)
    ensures StartsWith(ErrorBodyAsWritten(message), ErrorBodyPrefix)
    ensures ErrorBodyAsWritten(message)[|ErrorBodyPrefix|..] == message + "\""
    ensures ParseErrorBody(ErrorBodyAsWritten(message)) == None
  {
    var body := ErrorBodyAsWritten(message);
    var tail := body[|ErrorBodyPrefix|..];
    assert tail == message + "\"";
    ReadJsonStringRest(tail);
    assert tail[|tail| - 1] == '"';
  }

  /** 401 with an error body. */
  function Unauthorized(message: string): (r: Response)
    ensures r.status == 401 && ParseErrorBody(r.body) == Some(message)
  {
    JsonErrorBodyRoundTrip(message);
    Response(401, None, None, JsonErrorBody(message))
  }

  /** 400 with a JSON error body. */
  function BadRequest(message: string): (r: Response)
    ensures r.status == 400 && r.contentType == Some("application/json")
    ensures ParseErrorBody(r.body) == Some(message)
  {
    JsonErrorBodyRoundTrip(message);
    Response(400, Some("application/json"), None, JsonErrorBody(message))
  }

  // ---------------------------------------------------------------------
  // The viewer page

  const IndexPage: string := "pages/index.html"
  const TokenPlaceholder: string := "__TOKEN__"

  /** The token as the page's script sees it: its decimal numeral in double quotes. */
  function TokenLiteral(id: uint64): string {
    "\"" + Decimal(id as nat) + "\""
  }

  /** The string the page sends back as `token` parses to the id it was given. */
  lemma TokenLiteralRoundTrip(id: uint64)
    ensures var lit := TokenLiteral(id);
      |lit| >= 2 && lit[0] == '"' && lit[|lit| - 1] == '"' && ParseUint64(lit[1..|lit| - 1]) == Ok(id)
  {
    var lit := TokenLiteral(id);
    assert lit[1..|lit| - 1] == Decimal(id as nat);
    DecimalRoundTrip(id);
  }

  /** The page with every `__TOKEN__` replaced by the token literal. */
  function PatchToken(page: string, id: uint64): (patched: string)
    ensures patched == Join(Split(page, TokenPlaceholder), TokenLiteral(id))
  {
    ReplaceIsJoinOfSplit(page, TokenPlaceholder, TokenLiteral(id));
    ReplaceAll(page, TokenPlaceholder, TokenLiteral(id))
  }

  /**
   * Patching cuts the page at every leftmost non-overlapping `__TOKEN__` and
   * glues it back with the
   * token literal; a page without the placeholder is served unchanged.
   */
  lemma PatchTokenMeaning(page: string, id: uint64)
    ensures var pieces := Split(page, TokenPlaceholder);
      && PatchToken(page, id) == Join(pieces, TokenLiteral(id))
      && Join(pieces, TokenPlaceholder) == page
      && forall k :: 0 <= k < |pieces| ==> !Occurs(pieces[k], TokenPlaceholder)
    ensures !Occurs(page, TokenPlaceholder) ==> PatchToken(page, id) == page
  {
    ReplaceAllMeaning(page, TokenPlaceholder, TokenLiteral(id));
    if !Occurs(page, TokenPlaceholder) {
      ReplaceAbsent(page, TokenPlaceholder, TokenLiteral(id));
    }
  }

  /**
   * `serve_index_html_page(path)`: when the page template can be read, a
   * fresh token is issued for `path` and patched into it; otherwise 500 and
   * no token is issued.
   */
  method ServeIndexHtmlPage(fs: FileSystem, store: TokenStore, path: string, now: nat, random: seq<uint64>)
    returns (r: Response, issued: Option<uint64>)
    requires store.Valid()
    requires exists k :: 0 <= k < |random| && random[k] != 0 && random[k] !in Pruned(store.tokens, now)
    modifies store
    ensures store.Valid()
    ensures !(IndexPage in fs.files && IndexPage in fs.utf8) ==>
      r == InternalServerError() && issued == None && store.tokens == old(store.tokens)
    ensures IndexPage in fs.files && IndexPage in fs.utf8 ==>
      && issued.Some? && issued.value != 0 && issued.value !in Pruned(old(store.tokens), now)
      && store.tokens == Pruned(old(store.tokens), now)[issued.value := Token(path, now)]
      && r == ServeBytes(PatchToken(fs.files[IndexPage], issued.value), "text/html; charset=utf-8", false)
  {
    var content := fs.ReadToString(IndexPage);
    if content.None? {
      return InternalServerError(), None;
    }
    var id := store.Authorize(path, now, random);
    issued := Some(id);
    r := ServeBytes(PatchToken(content.value, id), "text/html; charset=utf-8", false);
  }

  // ---------------------------------------------------------------------
  // Running code

  /** The fields of a run request's JSON body. */
  datatype RunCodeRequest = RunCodeRequest(path: string, token: string, language: string, code: string)

  /** The request body: not received in full, not the expected JSON (with the decoder's message), or decoded. */
  datatype Body = Incomplete | Malformed(error: string) | Decoded(request: RunCodeRequest)

  /** The run the handler asks for: working directory, language, code. */
  datatype RunCall = RunCall(workingDir: string, language: string, code: string)

  /**
   * The outcome of the handler: the response, the (path, id) the token
   * store was asked about, the path that was read, and the run requested.
   */
  datatype Decision = Decision(response: Response, authQuery: Option<(string, uint64)>, readPath: Option<string>, run: Option<RunCall>)

  const ExpiredMessage: string :=
    "You are not authorized to run this code. Maybe your token has expired? Try reloading the page."
  const StaleSourceMessage: string :=
    "Requested source code does not exist in the file anymore. Maybe the file has been modified? Try reloading the page."

  function UnreadableMessage(path: string): string {
    "File " + path + " could not be read"
  }

  /** The run's working directory: the parent of `path`, or `path` itself when it has none. */
  function WorkingDir(path: string, parent: string -> Option<string>): string {
    parent(path).GetOr(path)
  }

  /**
   * `run_code`, step by step with early returns: decode the body, parse
   * the token, ask the token store, read the file afresh, check that the
   * code is still in it, run it. `authorized`, `fileContents` and `runOk`
   * are the answers the store, the file system and the runner give when
   * they are asked; `parent` is `Path::parent`.
   */
  function RunCodeDecision(body: Body, authorized: bool, fileContents: Option<string>, runOk: bool,
                           parent: string -> Option<string>): (d: Decision)
    ensures d.response.status in {200, 400, 401, 500}
    ensures d.run.Some? ==> body.Decoded? && authorized && fileContents.Some?
    ensures d.response.status == 200 ==> d.run.Some? && runOk
  {
    match body
    case Incomplete => Decision(InternalServerError(), None, None, None)
    case Malformed(error) => Decision(BadRequest(error), None, None, None)
    case Decoded(req) =>
      match ParseUint64(req.token)
      case Err(kind) => Decision(BadRequest(IntErrorMessage(kind)), None, None, None)
      case Ok(id) =>
        var query := Some((req.path, id));
        if !authorized then Decision(Unauthorized(ExpiredMessage), query, None, None)
        else
          match fileContents
          case None => Decision(BadRequest(UnreadableMessage(req.path)), query, Some(req.path), None)
          case Some(contents) =>
            if !Contains(contents, req.code) then
              Decision(Unauthorized(StaleSourceMessage), query, Some(req.path), None)
            else
              var call := RunCall(WorkingDir(req.path, parent), req.language, req.code);
              Decision(if runOk then Response(200, None, None, []) else InternalServerError(),
                       query, Some(req.path), Some(call))
  }

  /**
   * The guard against running arbitrary code: a run is requested only for a
   * decoded request whose token parsed, after the store accepted that token
   * for the request's own path, and after the file at that path was read
   * and found to contain the code verbatim; the run is of exactly that
   * code, in the file's directory.
   */
  lemma RunsOnlyVerifiedCode(body: Body, authorized: bool, fileContents: Option<string>, runOk: bool,
                             parent: string -> Option<string>)
    ensures var d := RunCodeDecision(body, authorized, fileContents, runOk, parent);
      d.run.Some? ==>
        && body.Decoded?
        && ParseUint64(body.request.token).Ok?
        && d.authQuery == Some((body.request.path, ParseUint64(body.request.token).value))
        && authorized
        && d.readPath == Some(body.request.path)
        && fileContents.Some? && Occurs(fileContents.value, body.request.code)
        && d.run.value == RunCall(WorkingDir(body.request.path, parent), body.request.language, body.request.code)
  {
    if body.Decoded? && fileContents.Some? {
      ContainsIff(fileContents.value, body.request.code);
    }
  }

  /** Conversely, a verified request is always run, and its status is the run's result. */
  lemma VerifiedCodeRuns(body: Body, authorized: bool, fileContents: Option<string>, runOk: bool,
                         parent: string -> Option<string>)
    requires body.Decoded? && ParseUint64(body.request.token).Ok? && authorized
    requires fileContents.Some? && Occurs(fileContents.value, body.request.code)
    ensures var d := RunCodeDecision(body, authorized, fileContents, runOk, parent);
      && d.run.Some?
      && d.response.status == (if runOk then 200 else 500)
      && d.response.body == []
  {
    ContainsIff(fileContents.value, body.request.code);
  }

  /**
   * What each status means. 400: the body or the token did not parse, or the
   * file could not be read. 401: the store refused the token, or the file no
   * longer contains the code. 500: the body was not received, or the run
   * failed. 200: the run succeeded.
   */
  lemma StatusMeaning(body: Body, authorized: bool, fileContents: Option<string>, runOk: bool,
                      parent: string -> Option<string>)
    ensures var d := RunCodeDecision(body, authorized, fileContents, runOk, parent);
      var tokenOk := body.Decoded? && ParseUint64(body.request.token).Ok?;
      var contained := body.Decoded? && fileContents.Some? && Occurs(fileContents.value, body.request.code);
      && (d.response.status == 400 <==> body.Malformed? || (body.Decoded? && !tokenOk) || (tokenOk && authorized && fileContents.None?))
      && (d.response.status == 401 <==> tokenOk && (!authorized || (fileContents.Some? && !contained)))
      && (d.response.status == 500 <==> body.Incomplete? || (tokenOk && authorized && contained && !runOk))
      && (d.response.status == 200 <==> tokenOk && authorized && contained && runOk)
  {
    if body.Decoded? && fileContents.Some? {
      ContainsIff(fileContents.value, body.request.code);
    }
  }

  /**
   * Early rejections touch nothing further: a body or token that does not
   * parse reaches neither the token store nor the file, and a refused token
   * does not get the file read.
   */
  lemma EarlyRejectionsStop(body: Body, authorized: bool, fileContents: Option<string>, runOk: bool,
                            parent: string -> Option<string>)
    ensures var d := RunCodeDecision(body, authorized, fileContents, runOk, parent);
      && (!body.Decoded? || ParseUint64(body.request.token).Err? ==>
            d.authQuery == None && d.readPath == None && d.run == None)
      && (!authorized ==> d.readPath == None && d.run == None)
  {
  }

  /** Whether the token store accepts the request's token for the request's path. */
  predicate TokenAccepted(tokens: map<uint64, Token>, body: Body, now: nat) {
    body.Decoded? && ParseUint64(body.request.token).Ok? &&
    Authorized(tokens, body.request.path, ParseUint64(body.request.token).value, now)
  }

  /** What reading the request's path as text returns. */
  function FileRead(files: map<string, string>, utf8: set<string>, body: Body): Option<string> {
    if body.Decoded? && body.request.path in files && body.request.path in utf8 then Some(files[body.request.path])
    else None
  }

  /** Whether `Run.RunCode` reports success for the request's language. */
  predicate RunSucceeds(runners: map<string, Runner>, body: Body, env: Environment) {
    body.Decoded? && body.request.language in runners &&
    env.mkdirSucceeds && env.writeSucceeds && env.exitStatus == Some(true)
  }

  /**
   * `run_code` against the real token store, registry and file system: the
   * response is the one `RunCodeDecision` gives with the answers they give,
   * and a process is started only for code that the file at the request's
   * path contained verbatim, under a token the store accepted for that path.
   */
  method HandleRunCode(store: TokenStore, registry: RunnerRegistry, fs: FileSystem, body: Body, now: nat,
                       parent: string -> Option<string>, env: Environment)
    returns (r: Response, launched: Option<Invocation>)
    requires store.Valid() && registry.Valid()
    modifies store, fs
    ensures store.Valid()
    ensures r == RunCodeDecision(body, TokenAccepted(old(store.tokens), body, now), FileRead(old(fs.files), old(fs.utf8), body),
                                 RunSucceeds(registry.runners, body, env), parent).response
    ensures launched.Some? <==>
      && TokenAccepted(old(store.tokens), body, now)
      && body.request.path in old(fs.files) && body.request.path in old(fs.utf8)
      && Occurs(old(fs.files)[body.request.path], body.request.code)
      && body.request.language in registry.runners && env.mkdirSucceeds && env.writeSucceeds
    ensures launched.Some? ==>
      var runner := registry.runners[body.request.language];
      var staged := StagedPath(env.tempDir, env.hash(body.request.language, body.request.code), runner.extension);
      && launched == Some(Launch(runner.command, staged, WorkingDir(body.request.path, parent)))
      && fs.files == old(fs.files)[staged := body.request.code]
      && fs.utf8 == old(fs.utf8) + {staged}
      && fs.dirs == old(fs.dirs) + {ScratchDir(env.tempDir)}
    ensures launched.None? ==> fs.files == old(fs.files) && fs.utf8 == old(fs.utf8)
    ensures fs.dirs ==
      if && TokenAccepted(old(store.tokens), body, now)
         && body.request.path in old(fs.files) && body.request.path in old(fs.utf8)
         && Occurs(old(fs.files)[body.request.path], body.request.code)
         && body.request.language in registry.runners && env.mkdirSucceeds
      then old(fs.dirs) + {ScratchDir(env.tempDir)} else old(fs.dirs)
    ensures store.tokens ==
      if body.Decoded? && ParseUint64(body.request.token).Ok? && ParseUint64(body.request.token).value != 0
      then Pruned(old(store.tokens), now) else old(store.tokens)
    ensures r.status == 200 ==> launched.Some?
  {
    match body
    case Incomplete =>
      return InternalServerError(), None;
    case Malformed(error) =>
      return BadRequest(error), None;
    case Decoded(req) =>
      var parsed := ParseUint64(req.token);
      if parsed.Err? {
        return BadRequest(IntErrorMessage(parsed.error)), None;
      }
      r, launched := CheckAndRun(store, registry, fs, req, parsed.value, now, parent, env);
  }

  /**
   * `run_code` once the body is decoded and its token parsed as `id`: ask
   * the store, read the file afresh, check the code is in it, run it.
   */
  method CheckAndRun(store: TokenStore, registry: RunnerRegistry, fs: FileSystem, req: RunCodeRequest, id: uint64,
                     now: nat, parent: string -> Option<string>, env: Environment)
    returns (r: Response, launched: Option<Invocation>)
    requires store.Valid() && registry.Valid()
    requires ParseUint64(req.token) == Ok(id)
    modifies store, fs
    ensures store.Valid()
    ensures r == RunCodeDecision(Decoded(req), Authorized(old(store.tokens), req.path, id, now),
                                 FileRead(old(fs.files), old(fs.utf8), Decoded(req)),
                                 RunSucceeds(registry.runners, Decoded(req), env), parent).response
    ensures launched.Some? <==>
      && Authorized(old(store.tokens), req.path, id, now)
      && req.path in old(fs.files) && req.path in old(fs.utf8)
      && Occurs(old(fs.files)[req.path], req.code)
      && req.language in registry.runners && env.mkdirSucceeds && env.writeSucceeds
    ensures launched.Some? ==>
      var runner := registry.runners[req.language];
      var staged := StagedPath(env.tempDir, env.hash(req.language, req.code), runner.extension);
      && launched == Some(Launch(runner.command, staged, WorkingDir(req.path, parent)))
      && fs.files == old(fs.files)[staged := req.code]
      && fs.utf8 == old(fs.utf8) + {staged}
      && fs.dirs == old(fs.dirs) + {ScratchDir(env.tempDir)}
    ensures launched.None? ==> fs.files == old(fs.files) && fs.utf8 == old(fs.utf8)
    ensures fs.dirs ==
      if && Authorized(old(store.tokens), req.path, id, now)
         && req.path in old(fs.files) && req.path in old(fs.utf8)
         && Occurs(old(fs.files)[req.path], req.code)
         && req.language in registry.runners && env.mkdirSucceeds
      then old(fs.dirs) + {ScratchDir(env.tempDir)} else old(fs.dirs)
    ensures store.tokens == if id != 0 then Pruned(old(store.tokens), now) else old(store.tokens)
    ensures r.status == 200 ==> launched.Some?
  {
    ghost var files0, utf80, dirs0 := fs.files, fs.utf8, fs.dirs;
    var authorized := store.IsAuthorized(req.path, id, now);
    assert fs.files == files0 && fs.utf8 == utf80 && fs.dirs == dirs0;
    if !authorized {
      return Unauthorized(ExpiredMessage), None;
    }
    r, launched := ReadAndRun(registry, fs, req, parent, env);
  }

  /**
   * `run_code` once the token is accepted: read the file afresh, check that
   * the code is in it, run it.
   */
  method ReadAndRun(registry: RunnerRegistry, fs: FileSystem, req: RunCodeRequest,
                    parent: string -> Option<string>, env: Environment)
    returns (r: Response, launched: Option<Invocation>)
    requires registry.Valid()
    requires ParseUint64(req.token).Ok?
    modifies fs
    ensures r == RunCodeDecision(Decoded(req), true, FileRead(old(fs.files), old(fs.utf8), Decoded(req)),
                                 RunSucceeds(registry.runners, Decoded(req), env), parent).response
    ensures launched.Some? <==>
      && req.path in old(fs.files) && req.path in old(fs.utf8)
      && Occurs(old(fs.files)[req.path], req.code)
      && req.language in registry.runners && env.mkdirSucceeds && env.writeSucceeds
    ensures launched.Some? ==>
      var runner := registry.runners[req.language];
      var staged := StagedPath(env.tempDir, env.hash(req.language, req.code), runner.extension);
      && launched == Some(Launch(runner.command, staged, WorkingDir(req.path, parent)))
      && fs.files == old(fs.files)[staged := req.code]
      && fs.utf8 == old(fs.utf8) + {staged}
      && fs.dirs == old(fs.dirs) + {ScratchDir(env.tempDir)}
    ensures launched.None? ==> fs.files == old(fs.files) && fs.utf8 == old(fs.utf8)
    ensures fs.dirs ==
      if && req.path in old(fs.files) && req.path in old(fs.utf8)
         && Occurs(old(fs.files)[req.path], req.code)
         && req.language in registry.runners && env.mkdirSucceeds
      then old(fs.dirs) + {ScratchDir(env.tempDir)} else old(fs.dirs)
    ensures r.status == 200 ==> launched.Some?
  {
    ghost var read := FileRead(fs.files, fs.utf8, Decoded(req));
    var contents := fs.ReadToString(req.path);
    assert contents == read;
    if contents.None? {
      return BadRequest(UnreadableMessage(req.path)), None;
    }
    ContainsIff(contents.value, req.code);
    if !Contains(contents.value, req.code) {
      return Unauthorized(StaleSourceMessage), None;
    }
    r, launched := RunVerified(registry, fs, req, parent, env);
  }

  /**
   * The last step of `run_code`, once the code is verified: run it in the
   * file's directory and answer 200 on success, 500 otherwise.
   */
  method RunVerified(registry: RunnerRegistry, fs: FileSystem, req: RunCodeRequest,
                     parent: string -> Option<string>, env: Environment)
    returns (r: Response, launched: Option<Invocation>)
    requires registry.Valid()
    modifies fs
    ensures r == if RunSucceeds(registry.runners, Decoded(req), env) then Response(200, None, None, [])
                 else InternalServerError()
    ensures launched.Some? <==> req.language in registry.runners && env.mkdirSucceeds && env.writeSucceeds
    ensures launched.Some? ==>
      var runner := registry.runners[req.language];
      var staged := StagedPath(env.tempDir, env.hash(req.language, req.code), runner.extension);
      && launched == Some(Launch(runner.command, staged, WorkingDir(req.path, parent)))
      && fs.files == old(fs.files)[staged := req.code]
      && fs.utf8 == old(fs.utf8) + {staged}
      && fs.dirs == old(fs.dirs) + {ScratchDir(env.tempDir)}
    ensures launched.None? ==> fs.files == old(fs.files) && fs.utf8 == old(fs.utf8)
    ensures fs.dirs == if req.language in registry.runners && env.mkdirSucceeds
                       then old(fs.dirs) + {ScratchDir(env.tempDir)} else old(fs.dirs)
    ensures r.status == 200 ==> launched.Some?
  {
    var ok;
    ok, launched := registry.RunCode(WorkingDir(req.path, parent), req.language, req.code, fs, env);
    r := if ok then Response(200, None, None, []) else InternalServerError();
  }
}
