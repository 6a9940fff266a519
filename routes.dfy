/**
 * The route table of `process_request` in backend/src/main.rs: which
 * handler answers a request, by HTTP method and URL path. Percent-decoding
 * (`decode`) and the file-system question "is this a regular file?"
 * (`isFile`) are passed in.
 */
module Routes {
  import opened Text

  datatype HttpVerb = Get | Post | OtherMethod

  /**
   * The handler a request goes to, with the arguments it is called with.
   * `NotFound` is answered with status 404 and an empty body.
   */
  datatype Handler =
    | ServeFile(file: string, contentType: string, cache: bool)
    | ServeViewer(filePath: string)
    | RunCode
    | NotFound

  const ViewerPrefix: string := "/file/"
  const ApiFilePrefix: string := "/api/file/"
  const FontPrefix: string := "/fontawesome/"

  /** `process_request`: the first arm that matches, in the order the source lists them. */
  function Route(verb: HttpVerb, path: string, decode: string -> string, isFile: string -> bool): (h: Handler)
    ensures h.RunCode? ==> verb == Post && path == "/api/run"
    ensures h.ServeFile? && !h.cache ==> isFile(h.file) && EndsWith(h.file, ".md")
    ensures verb == OtherMethod ==> h == NotFound
  {
    if verb == Get && path == "/favicon.ico" then
      ServeFile("pages/favicon.ico", "image/vnd.microsoft.icon", true)
    else if verb == Get && path == "/page.js" then
      ServeFile("pages/page.js", "text/javascript", true)
    else if verb == Get && StartsWith(path, FontPrefix) then
      ServeFile("pages/" + path, if EndsWith(path, ".css") then "text/css" else "font/ttf", true)
    else if verb == Get && StartsWith(path, ViewerPrefix) then
      ServeViewer(decode(path[|ViewerPrefix|..]))
    else if verb == Get && StartsWith(path, ApiFilePrefix) then
      var filePath := decode(path[|ApiFilePrefix|..]);
      if isFile(filePath) && EndsWith(filePath, ".md") then ServeFile(filePath, "text/plain; charset=utf-8", false)
      else NotFound
    else if verb == Post && path == "/api/run" then
      RunCode
    else
      NotFound
  }

  /** Code is run only for a POST to exactly `/api/run`; every other POST is not found. */
  lemma RunOnlyFromPostApiRun(verb: HttpVerb, path: string, decode: string -> string, isFile: string -> bool)
    ensures Route(verb, path, decode, isFile) == RunCode <==> verb == Post && path == "/api/run"
    ensures verb == Post && path != "/api/run" ==> Route(verb, path, decode, isFile) == NotFound
  {
  }

  /** The two fixed assets are served from `pages/`, cached. */
  lemma FixedAssets(decode: string -> string, isFile: string -> bool)
    ensures Route(Get, "/favicon.ico", decode, isFile) == ServeFile("pages/favicon.ico", "image/vnd.microsoft.icon", true)
    ensures Route(Get, "/page.js", decode, isFile) == ServeFile("pages/page.js", "text/javascript", true)
  {
  }

  /** A font-awesome path is served, cached, from `"pages/" + path`, as CSS iff it ends in `.css`. */
  lemma FontAssets(path: string, decode: string -> string, isFile: string -> bool)
    requires StartsWith(path, FontPrefix)
    ensures var h := Route(Get, path, decode, isFile);
      && h.ServeFile? && h.file == "pages/" + path && h.cache
      && (h.contentType == "text/css" <==> EndsWith(path, ".css"))
      && (h.contentType == "font/ttf" <==> !EndsWith(path, ".css"))
  {
    assert path != "/favicon.ico" && path != "/page.js" by {
      assert path[1] == 'f' && path[2] == 'o';
    }
  }

  /** `/file/<p>` serves the viewer page for the decoded `p`. */
  lemma ViewerPage(path: string, decode: string -> string, isFile: string -> bool)
    requires StartsWith(path, ViewerPrefix)
    ensures Route(Get, path, decode, isFile) == ServeViewer(decode(path[|ViewerPrefix|..]))
  {
    assert path != "/favicon.ico" && path != "/page.js" && !StartsWith(path, FontPrefix) by {
      assert path[1] == 'f' && path[2] == 'i';
    }
  }

  /**
   * `/api/file/<p>` serves the decoded `p` as uncached text exactly when it is
   * an existing regular file whose name ends in `.md`, and is not found
   * otherwise.
   */
  lemma MarkdownGate(path: string, decode: string -> string, isFile: string -> bool)
    requires StartsWith(path, ApiFilePrefix)
    ensures var filePath := decode(path[|ApiFilePrefix|..]);
      var h := Route(Get, path, decode, isFile);
      && (h.ServeFile? <==> isFile(filePath) && EndsWith(filePath, ".md"))
      && (h.ServeFile? ==> h == ServeFile(filePath, "text/plain; charset=utf-8", false))
      && (!h.ServeFile? ==> h == NotFound)
  {
    assert path != "/favicon.ico" && path != "/page.js" && !StartsWith(path, FontPrefix) && !StartsWith(path, ViewerPrefix) by {
      assert path[1] == 'a';
    }
  }

  /** Every request outside the table is not found. */
  lemma OnlyListedRoutes(verb: HttpVerb, path: string, decode: string -> string, isFile: string -> bool)
    requires Route(verb, path, decode, isFile) != NotFound
    ensures
      || (verb == Get && (path == "/favicon.ico" || path == "/page.js" || StartsWith(path, FontPrefix)
                            || StartsWith(path, ViewerPrefix) || StartsWith(path, ApiFilePrefix)))
      || (verb == Post && path == "/api/run")
  {
  }

  /**
   * The files a request can have served: the two fixed assets, anything
   * named `pages//fontawesome/...`, and otherwise only existing regular
   * files ending in `.md`, which alone are served uncached. The prefix does
   * not confine the font route: `..` segments are not excluded, so
   * `GET /fontawesome/../../x` serves `pages//fontawesome/../../x`.
   */
  lemma ServedFiles(verb: HttpVerb, path: string, decode: string -> string, isFile: string -> bool)
    requires Route(verb, path, decode, isFile).ServeFile?
    ensures var h := Route(verb, path, decode, isFile);
      || h.file == "pages/favicon.ico"
      || h.file == "pages/page.js"
      || StartsWith(h.file, "pages/" + FontPrefix)
      || (isFile(h.file) && EndsWith(h.file, ".md") && !h.cache)
  {
    var h := Route(verb, path, decode, isFile);
    if StartsWith(path, FontPrefix) && path != "/favicon.ico" && path != "/page.js" {
      assert h.file == "pages/" + path;
      assert h.file[..|"pages/" + FontPrefix|] == "pages/" + FontPrefix;
    }
  }
}
