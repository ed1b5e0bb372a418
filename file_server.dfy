/**
 * `HttpFileServerHandler.channelRead0`: the decision chain from a request
 * and the facts about the file it names to one response.  The chain writes
 * to the channel; here it returns what it would write.
 */
module FileServer {
  import opened Wrappers
  import opened Text
  import opened Sanitizer
  import opened Responses
  import opened Listing

  /**
   * What the handler reads from a `FullHttpRequest`: whether Netty's HTTP
   * decoder succeeded, the method name, the raw request URI, and
   * `HttpUtil.isKeepAlive(request)`.
   */
  datatype Request = Request(decoderSuccess: bool, httpMethod: string, uri: string, keepAlive: bool)

  /**
   * What `java.io.File` and `RandomAccessFile` report about a path:
   * `isHidden`, `exists`, `isDirectory`, whether opening it for reading
   * succeeds, its length, and the result of `listFiles` (None for null).
   */
  datatype FileFacts = FileFacts(
    hidden: bool,
    present: bool,
    isDirectory: bool,
    opens: bool,
    length: nat,
    listFiles: Option<seq<Entry>>)

  /**
   * The handler's environment: `File.separatorChar`, the `user.dir`
   * property, `URLDecoder.decode(_, "UTF-8")` (None when it throws), the
   * file system, `File.getPath` and the MIME-type lookup.
   */
  datatype Env = Env(
    sep: char,
    userDir: string,
    urlDecode: string -> Option<string>,
    stat: string -> FileFacts,
    getPath: string -> string,
    mimeType: string -> string)

  /**
   * The result of handling one request: a response, or the exception
   * `URLDecoder` throws on a malformed escape, which sanitizeUri does not
   * catch and which leaves the handler without writing anything.
   */
  datatype Outcome = Reply(resp: Response) | Uncaught

  /** The 200 response for a regular file: headers, then the file in 8192-byte chunks. */
  function FileResponse(env: Env, path: string, length: nat, keepAlive: bool): (r: Response)
    ensures r.status == OK && r.headers.contentLength == Some(length)
    ensures r.body.FileChunks? && r.body.path == path && Tiles(r.body.chunks, 0, length)
    ensures r.closeAfter <==> !keepAlive
    ensures r.headers.connection == Some(KeepAlive) <==> keepAlive
  {
    ChunkRangesTile(0, length, ChunkSize);
    Response(OK,
             Headers(Some(env.mimeType(env.getPath(path))), Some(length),
                     if keepAlive then Some(KeepAlive) else None, None),
             FileChunks(path, ChunkRanges(0, length, ChunkSize)),
             !keepAlive)
  }

  /** `channelRead0` for the handler configured with URL prefix `url`. */
  function ChannelRead0(url: string, env: Env, req: Request): (o: Outcome)
    ensures o.Uncaught? <==> req.decoderSuccess && req.httpMethod == "GET" && env.urlDecode(req.uri).None?
    ensures o.Reply? && o.resp.status.IsError() ==> o.resp.closeAfter
    ensures o.Reply? && o.resp.body.FileChunks? ==>
      o.resp.status == OK && StartsWith(o.resp.body.path, env.userDir + [env.sep])
  {
    if !req.decoderSuccess then Reply(SendError(BadRequest))
    else if req.httpMethod != "GET" then Reply(SendError(MethodNotAllowed))
    else
      match env.urlDecode(req.uri)
      case None => Uncaught
      case Some(decoded) =>
        match SanitizeUri(url, env.sep, env.userDir, decoded)
        case None => Reply(SendError(Forbidden))
        case Some(path) =>
          var file := env.stat(path);
          if file.hidden || !file.present then Reply(SendError(NotFound))
          else if file.isDirectory then
            if EndsWith(req.uri, "/") then Reply(ListingResponse(env.getPath(path), file.listFiles))
            else Reply(SendRedirect(req.uri + "/"))
          else if !file.opens then Reply(SendError(NotFound))
          else Reply(FileResponse(env, path, file.length, req.keepAlive))
  }

  /**
   * The checks run in a fixed order and the first that fails decides:
   * decoder failure 400, then a non-GET method 405, then a rejected URI 403,
   * then a hidden or missing target 404.
   */
  lemma ChecksInOrder(url: string, env: Env, req: Request)
    ensures !req.decoderSuccess ==> ChannelRead0(url, env, req) == Reply(SendError(BadRequest))
    ensures req.decoderSuccess && req.httpMethod != "GET" ==>
      ChannelRead0(url, env, req) == Reply(SendError(MethodNotAllowed))
    ensures req.decoderSuccess && req.httpMethod == "GET" && env.urlDecode(req.uri).None? ==>
      ChannelRead0(url, env, req) == Uncaught
    ensures req.decoderSuccess && req.httpMethod == "GET" && env.urlDecode(req.uri).Some? ==>
      var decoded := env.urlDecode(req.uri).value;
      var path := SanitizeUri(url, env.sep, env.userDir, decoded);
      && (path.None? ==> ChannelRead0(url, env, req) == Reply(SendError(Forbidden)))
      && (path.Some? && (env.stat(path.value).hidden || !env.stat(path.value).present) ==>
            ChannelRead0(url, env, req) == Reply(SendError(NotFound)))
  {
  }

  /**
   * A request that reaches the file system was decoded, is a GET, and its
   * URI passed the sanitiser; the path it names is the sanitised one.
   */
  predicate Reached(url: string, env: Env, req: Request, path: string) {
    && req.decoderSuccess && req.httpMethod == "GET"
    && env.urlDecode(req.uri).Some?
    && SanitizeUri(url, env.sep, env.userDir, env.urlDecode(req.uri).value) == Some(path)
    && !env.stat(path).hidden && env.stat(path).present
  }

  /**
   * An existing, visible directory: a URI ending in `/` gets the listing
   * (or 500 when it cannot be listed); any other gets a 302 to the URI with
   * `/` appended.
   */
  lemma DirectoryRequests(url: string, env: Env, req: Request, path: string)
    requires Reached(url, env, req, path) && env.stat(path).isDirectory
    ensures EndsWith(req.uri, "/") ==>
      ChannelRead0(url, env, req) == Reply(ListingResponse(env.getPath(path), env.stat(path).listFiles))
    ensures !EndsWith(req.uri, "/") ==>
      ChannelRead0(url, env, req) == Reply(SendRedirect(req.uri + "/"))
  {
  }

  /**
   * Every error response carries the body `Failure: <code> <reason>` CRLF as
   * UTF-8 plain text and closes the connection; listings and redirects close
   * it too.  Only a file transfer may leave it open.
   */
  lemma ResponseShapes(url: string, env: Env, req: Request)
    requires ChannelRead0(url, env, req).Reply?
    ensures var r := ChannelRead0(url, env, req).resp;
      && (r.status.IsError() ==>
            r == SendError(r.status)
            && r.body == TextBody("Failure: " + r.status.ToString() + "\r\n")
            && r.headers.contentType == Some("text/plain; charset=UTF-8"))
      && (!r.body.FileChunks? ==> r.closeAfter)
  {
    if req.decoderSuccess && req.httpMethod == "GET" {
      var decoded := env.urlDecode(req.uri).value;
      var sanitized := SanitizeUri(url, env.sep, env.userDir, decoded);
      if sanitized.Some? {
        var file := env.stat(sanitized.value);
        if !file.hidden && file.present && file.isDirectory && EndsWith(req.uri, "/") {
          assert ChannelRead0(url, env, req)
            == Reply(ListingResponse(env.getPath(sanitized.value), file.listFiles));
        }
      }
    }
  }

  /**
   * A regular file that opens is sent with status 200, `Content-Length` equal
   * to its length, in chunks of at most 8192 bytes (all but the last exactly
   * 8192, as many as needed) covering `[0, length)` once and in order;
   * `Connection: keep-alive` is set, and the connection left open, iff the
   * request is keep-alive.  A file that does not open gives 404.
   */
  lemma RegularFileRequests(url: string, env: Env, req: Request, path: string)
    requires Reached(url, env, req, path) && !env.stat(path).isDirectory
    ensures !env.stat(path).opens ==> ChannelRead0(url, env, req) == Reply(SendError(NotFound))
    ensures env.stat(path).opens ==>
      var length := env.stat(path).length;
      var r := ChannelRead0(url, env, req).resp;
      && ChannelRead0(url, env, req).Reply?
      && r.status == OK
      && r.headers.contentLength == Some(length)
      && (r.headers.connection == Some("keep-alive") <==> req.keepAlive)
      && (r.closeAfter <==> !req.keepAlive)
      && r.body.FileChunks? && r.body.path == path
      && Tiles(r.body.chunks, 0, length)
      && (forall k | 0 <= k < |r.body.chunks| :: r.body.chunks[k].size <= 8192)
      && (forall k | 0 <= k < |r.body.chunks| - 1 :: r.body.chunks[k].size == 8192)
      && (|r.body.chunks| > 0 ==> (|r.body.chunks| - 1) * 8192 < length <= |r.body.chunks| * 8192)
      && (length == 0 <==> r.body.chunks == [])
  {
    if env.stat(path).opens {
      var length := env.stat(path).length;
      var rs := ChunkRanges(0, length, ChunkSize);
      ChunkRangesTile(0, length, ChunkSize);
      TilesCover(rs, 0, length, ChunkSize);
    }
  }

  /**
   * A file is only ever streamed from under the working directory: its path
   * is `user.dir`, the separator, then the mapped URI, and no segment of that
   * URI is `.` or `..` or starts or ends with a dot.
   */
  lemma StreamedFilesConfined(url: string, env: Env, req: Request)
    requires ChannelRead0(url, env, req).Reply? && ChannelRead0(url, env, req).resp.body.FileChunks?
    ensures var path := ChannelRead0(url, env, req).resp.body.path;
      var uri := path[|env.userDir| + 1..];
      && StartsWith(path, env.userDir + [env.sep])
      && |uri| > 0 && uri[0] == env.sep
      && forall seg <- Segments(uri, env.sep) ::
           seg != "." && seg != ".." && (|seg| > 0 ==> seg[0] != '.' && seg[|seg| - 1] != '.')
  {
    var decoded, path := StreamedPath(url, env, req);
    AcceptedUnderRoot(url, env.sep, env.userDir, decoded);
    NoTraversalAccepted(url, env.sep, env.userDir, decoded);
  }

  /** The path a file is streamed from is the sanitised decoded URI. */
  lemma StreamedPath(url: string, env: Env, req: Request) returns (decoded: string, path: string)
    requires ChannelRead0(url, env, req).Reply? && ChannelRead0(url, env, req).resp.body.FileChunks?
    ensures env.urlDecode(req.uri) == Some(decoded)
    ensures SanitizeUri(url, env.sep, env.userDir, decoded) == Some(path)
    ensures ChannelRead0(url, env, req).resp.body.path == path
  {
    assert req.decoderSuccess && req.httpMethod == "GET";
    assert env.urlDecode(req.uri).Some?;
    decoded := env.urlDecode(req.uri).value;
    assert SanitizeUri(url, env.sep, env.userDir, decoded).Some?;
    path := SanitizeUri(url, env.sep, env.userDir, decoded).value;
    var file := env.stat(path);
    assert !file.hidden && file.present && !file.isDirectory && file.opens;
    assert ChannelRead0(url, env, req) == Reply(FileResponse(env, path, file.length, req.keepAlive));
  }

  /**
   * Traversal is stopped at the sanitiser, before any file-system check: a
   * GET whose decoded URI has a `.` or `..` segment once mapped to the
   * platform separator is answered 403.
   */
  lemma TraversalForbidden(url: string, env: Env, req: Request)
    requires req.decoderSuccess && req.httpMethod == "GET" && env.urlDecode(req.uri).Some?
    requires var segs := Segments(Replace(env.urlDecode(req.uri).value, '/', env.sep), env.sep);
      "." in segs || ".." in segs
    ensures ChannelRead0(url, env, req) == Reply(SendError(Forbidden))
  {
    var decoded := env.urlDecode(req.uri).value;
    if SanitizeUri(url, env.sep, env.userDir, decoded).Some? {
      NoTraversalAccepted(url, env.sep, env.userDir, decoded);
    }
  }
}
