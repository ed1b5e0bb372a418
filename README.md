# Static file server request handler, modelled in Dafny

The repository is a set of small examples built on the Netty networking
library. Most of it is Netty wiring. The one piece of logic it owns is the
request handler of its static-file HTTP server,
`HttpFileServer.HttpFileServerHandler`. This project models that handler and
proves its behaviour:

- **`sanitizeUri`** (`Sanitizer.SanitizeUri`) takes the percent-decoded
  request URI. It rejects the URI (Java `null`, here `None`) when:
  - it does not start with the configured prefix `url`;
  - it does not start with `/`;
  - after every `/` is mapped to the platform separator, it contains
    separator-dot or dot-separator;
  - it starts or ends with a dot;
  - it matches `INSECURE_URI`.

  Otherwise the result is `user.dir + separator + mapped URI`. The separator
  and `user.dir` are parameters. `INSECURE_URI` (`.*[<>&"].*`, used with
  `matches()`) is modelled with the regular expression's own structure. As in
  java.util.regex, its `.` matches no line terminator. So a decoded URI that
  holds a line feed is never caught by that clause, even when it contains `<`
  (`Sanitizer.LineTerminatorHidesInsecureChar`).
- **`channelRead0`** (`FileServer.ChannelRead0`) is a pure function. It maps
  the request and the file-system facts to what the handler writes: a
  response descriptor (status, the headers it sets, the body, and whether the
  connection is closed afterwards). It can also report that the URL decoder
  threw an exception.
- **`sendListing`** (`Listing.SendListing`) is a method. As in the Java code, it
  appends to a buffer in a loop over the `listFiles` array and skips entries
  with `continue`. It is proved equal to the page function
  `Listing.ListingPage`, and the filter and page are characterised by lemmas.
- **`sendError`** and **`sendRedirect`** (`Responses.SendError`,
  `Responses.SendRedirect`) build the error and 302 responses. Netty's
  `ChunkedFile` reads a file in ranges, modelled by `Responses.ChunkRanges`.

The main security claim is `Sanitizer.NoTraversalAccepted`. An accepted URI
starts with the separator, so every dot in it has a non-separator character on
both sides. No segment of it can therefore start or end with a dot, and none
is `.` or `..`. `FileServer.StreamedFilesConfined` and
`FileServer.TraversalForbidden` carry this claim to the whole handler.

Some behaviour of the code is easy to misread. The model follows the code:

- A failed HTTP decode gives 400 before the method is checked. A non-GET
  request with a bad decode therefore gets 400, not 405.
- The Latin-1 fallback around `URLDecoder.decode` only runs when UTF-8 is
  unsupported, and that never happens. A malformed percent escape instead
  throws `IllegalArgumentException`. `sanitizeUri` does not catch it, so no
  response is written (`Outcome.Uncaught`).
- Error responses always close the connection, whatever the keep-alive flag.
- The handler keeps `<`, `>`, `&` and `"` out of an accepted URI only when
  the URI contains no line terminator.

## Model

| member | source | states |
|---|---|---|
| `Text.StartsWith` | src/main/java/com/xsj/demo/http/HttpFileServer.java:161-164 | `startsWith` holds iff the prefix is no longer than the string and agrees with it character by character |
| `Text.EndsWith` | src/main/java/com/xsj/demo/http/HttpFileServer.java:92 | `endsWith` holds iff the suffix is no longer than the string and agrees with its last characters one by one |
| `Text.Contains` | src/main/java/com/xsj/demo/http/HttpFileServer.java:169-170 | `contains` needs a needle no longer than the string, and holds whenever the string starts or ends with the needle |
| `Text.Replace` | src/main/java/com/xsj/demo/http/HttpFileServer.java:168 | `uri.replace('/', File.separatorChar)`: the same length as the input; each `/` becomes the separator and every other character is kept |
| `Text.ContainsPair` | src/main/java/com/xsj/demo/http/HttpFileServer.java:169-170 | `contains` of a two-character needle (separator-dot, dot-separator) holds iff some adjacent pair of the string spells it |
| `Sanitizer.InsecureUri` | src/main/java/com/xsj/demo/http/HttpFileServer.java:149 | a full match of `.*[<>&"].*` implies the string holds one of `<>&"` |
| `Sanitizer.SanitizeUri` | src/main/java/com/xsj/demo/http/HttpFileServer.java:151-175 | an accepted URI is at least as long as `url`, is non-empty and starts with `/`; the accepted path is `user.dir`, then the separator, then as many characters as the URI has |
| `Sanitizer.InsecureUriMeaning` | src/main/java/com/xsj/demo/http/HttpFileServer.java:149 | `INSECURE_URI` matches the whole string iff the string contains one of `<>&"` and contains no line terminator |
| `Sanitizer.DotClausesMeaning` | src/main/java/com/xsj/demo/http/HttpFileServer.java:169-171 | the four dot clauses (contains separator-dot, contains dot-separator, starts with dot, ends with dot) together fail exactly when every dot is strictly inside a segment |
| `Sanitizer.SanitizeUriSpec` | src/main/java/com/xsj/demo/http/HttpFileServer.java:161-174 | accept iff the URI starts with `url` and with `/`, and its mapped form keeps every dot inside a segment and does not match `INSECURE_URI` (both directions); an accepted result is exactly `user.dir + sep + mapped URI` |
| `Sanitizer.RejectsOutsidePrefix` | src/main/java/com/xsj/demo/http/HttpFileServer.java:161-166 | a URI not starting with `url`, or not starting with `/`, gives null |
| `Sanitizer.RejectsDotsAndInsecure` | src/main/java/com/xsj/demo/http/HttpFileServer.java:168-173 | a mapped URI holding separator-dot or dot-separator, starting or ending with a dot, or matching `INSECURE_URI` gives null |
| `Sanitizer.AcceptedUnderRoot` | src/main/java/com/xsj/demo/http/HttpFileServer.java:164-174 | an accepted path starts with `user.dir + sep`, and the rest is the mapped URI, which itself starts with the separator |
| `Sanitizer.InteriorDotsCleanSegments` | src/main/java/com/xsj/demo/http/HttpFileServer.java:169-171 | when every dot is inside a segment, no separator-delimited segment starts or ends with a dot |
| `Sanitizer.NoTraversalAccepted` | src/main/java/com/xsj/demo/http/HttpFileServer.java:168-173 | no segment of an accepted mapped URI is `.` or `..`, or starts or ends with a dot |
| `Sanitizer.AcceptedHasNoInsecureChar` | src/main/java/com/xsj/demo/http/HttpFileServer.java:171 | an accepted URI without line terminators holds none of `<>&"` |
| `Sanitizer.LineTerminatorHidesInsecureChar` | src/main/java/com/xsj/demo/http/HttpFileServer.java:149 | `/a` LF `<b` is accepted although it contains `<`, because `.` does not match the line feed |
| `Sanitizer.ReplaceSlashBySlash` | src/main/java/com/xsj/demo/http/HttpFileServer.java:168 | with the POSIX separator the mapping leaves the URI unchanged |
| `Sanitizer.RejectsParentOfRoot` | src/main/java/com/xsj/demo/http/HttpFileServer.java:169 | `/../etc/passwd` is rejected |
| `Sanitizer.RejectsNestedParent` | src/main/java/com/xsj/demo/http/HttpFileServer.java:169-170 | `/a/../../b` is rejected |
| `Sanitizer.RejectsHiddenName` | src/main/java/com/xsj/demo/http/HttpFileServer.java:169 | `/.hidden` is rejected |
| `Sanitizer.RejectsTrailingDot` | src/main/java/com/xsj/demo/http/HttpFileServer.java:171 | `/foo.` is rejected |
| `Sanitizer.AcceptsPlainFile` | src/main/java/com/xsj/demo/http/HttpFileServer.java:161-174 | `/a/b.txt` is accepted and resolves to `user.dir + "/" + "/a/b.txt"` |
| `Responses.ThreeDigits` | src/main/java/com/xsj/demo/http/HttpFileServer.java:143 | the code part of `status.toString()` in the error body is the three decimal digits of the status code |
| `Responses.SendError` | src/main/java/com/xsj/demo/http/HttpFileServer.java:140-147 | the response keeps the given status, is `text/plain; charset=UTF-8` with no `Location`, has a text body, and closes the connection |
| `Responses.ErrorBodyNamesStatus` | src/main/java/com/xsj/demo/http/HttpFileServer.java:143 | the error body starts with `Failure: ` and the three-digit code, and ends with the reason phrase and CRLF |
| `Responses.SendRedirect` | src/main/java/com/xsj/demo/http/HttpFileServer.java:218-222 | the response is a 302 whose `Location` is exactly the new URI, with no body, and closes the connection |
| `Responses.ChunkRanges` | src/main/java/com/xsj/demo/http/HttpFileServer.java:114 | there are chunks iff the range is non-empty; each chunk is non-empty, at most 8192 bytes, and lies within `[offset, end)` |
| `Responses.ChunkRangesTile` | src/main/java/com/xsj/demo/http/HttpFileServer.java:114 | `ChunkedFile(raf, 0, fileLength, 8192)` reads non-empty ranges that cover `[0, fileLength)` once, in order; each is at most 8192 bytes and all but the last exactly 8192 |
| `Responses.TilesCover` | src/main/java/com/xsj/demo/http/HttpFileServer.java:114 | with n such ranges, `(n-1)*8192 < length <= n*8192`: no more chunks are sent than needed |
| `Listing.AllowedFileName` | src/main/java/com/xsj/demo/http/HttpFileServer.java:63 | a name matching `[A-Za-z0-9][-_A-Za-z0-9\.]*` is non-empty, does not start with a dot, and holds no `/` and none of `<>&"` |
| `Listing.VisibleNames` | src/main/java/com/xsj/demo/http/HttpFileServer.java:196-203 | the loop links at most as many names as there are entries, and all of them when every entry passes the filter |
| `Listing.ListingPage` | src/main/java/com/xsj/demo/http/HttpFileServer.java:187-210 | the page starts with the head and the `../` parent link and ends with the closing tags, whatever the directory holds |
| `Listing.ListingResponse` | src/main/java/com/xsj/demo/http/HttpFileServer.java:177-184 | a null `listFiles` gives exactly the 500 error response; otherwise 200 with `text/html; charset=UTF-8` and the listing page; the connection is closed either way |
| `Listing.SendListing` | src/main/java/com/xsj/demo/http/HttpFileServer.java:177-215 | a null `listFiles` gives the 500 error response; otherwise 200, `text/html; charset=UTF-8`, connection closed, and the body the buffer loop builds is exactly `ListingPage(dirPath, files)` |
| `Listing.VisibleNamesCount` | src/main/java/com/xsj/demo/http/HttpFileServer.java:196-203 | the page has one entry link per entry that is not hidden, is readable and has an allowed name |
| `Listing.VisibleNamesOrder` | src/main/java/com/xsj/demo/http/HttpFileServer.java:196-209 | the shown entry at index i is linked at the position given by the number of shown entries before it, so links follow `listFiles` order |
| `Listing.VisibleNamesMembers` | src/main/java/com/xsj/demo/http/HttpFileServer.java:196-203 | a name is linked iff some entry carrying it is not hidden, is readable and matches `[A-Za-z0-9][-_A-Za-z0-9.]*` |
| `Listing.NothingShownOnlyParentLink` | src/main/java/com/xsj/demo/http/HttpFileServer.java:187-210 | with nothing to show (an empty directory in particular) the page is the head, the `../` parent link and the closing tags only |
| `Listing.VisibleNamesAreSafe` | src/main/java/com/xsj/demo/http/HttpFileServer.java:63 | every linked name matches the allowed pattern, holds none of `<>&"`, and is neither `.` nor `..` |
| `FileServer.FileResponse` | src/main/java/com/xsj/demo/http/HttpFileServer.java:106-114 | 200 with `Content-Length` set to the file length, the file in ranges that cover `[0, length)` in order, `Connection: keep-alive` iff keep-alive, and the connection closed iff not keep-alive |
| `FileServer.ChannelRead0` | src/main/java/com/xsj/demo/http/HttpFileServer.java:71-137 | no response is written exactly when the decoder succeeded, the method is GET and URL decoding throws; every error response closes the connection; a streamed file is a 200 whose path starts with `user.dir + sep` |
| `FileServer.ChecksInOrder` | src/main/java/com/xsj/demo/http/HttpFileServer.java:72-90 | earlier checks win: decoder failure 400, then non-GET 405, then a decoding exception (no response), then a rejected URI 403, then a hidden or missing target 404 |
| `FileServer.DirectoryRequests` | src/main/java/com/xsj/demo/http/HttpFileServer.java:91-97 | for an existing, visible directory, a URI ending in `/` gets the listing response; otherwise exactly the `sendRedirect(uri + "/")` response |
| `FileServer.ResponseShapes` | src/main/java/com/xsj/demo/http/HttpFileServer.java:140-147 | every error response has body `"Failure: " + status + "\r\n"` with content type `text/plain; charset=UTF-8`; every response except a file transfer closes the connection |
| `FileServer.RegularFileRequests` | src/main/java/com/xsj/demo/http/HttpFileServer.java:99-136 | a file that fails to open gives 404; otherwise 200, `Content-Length` = file length, 8192-byte chunks covering `[0, length)`, `Connection: keep-alive` iff keep-alive, connection closed iff not keep-alive |
| `FileServer.StreamedFilesConfined` | src/main/java/com/xsj/demo/http/HttpFileServer.java:80-114 | a streamed file's path starts with `user.dir + sep`, and no segment after it is `.` or `..` or starts or ends with a dot |
| `FileServer.TraversalForbidden` | src/main/java/com/xsj/demo/http/HttpFileServer.java:80-85 | a GET whose decoded, mapped URI has a `.` or `..` segment is answered 403 before any file-system check |

## Left out

- Netty wiring: `run` (bootstrap, event-loop groups, pipeline, bind, graceful
  shutdown) and `main` (port and prefix arguments). These are library
  configuration and I/O.
- `URLDecoder.decode` is the parameter `urlDecode`. Its internals are not
  modelled, and `None` stands for the exception it throws on a malformed
  escape.
- The Latin-1 fallback at lines 154-159 is not modelled. It is unreachable,
  because UTF-8 is always supported.
- The file system (`isHidden`, `exists`, `isDirectory`, opening a
  `RandomAccessFile`, its length, `listFiles`) is taken as input data.
  `File.getPath` is a parameter too. An `IOException` from `length()` is not
  modelled.
- The MIME lookup through `MimetypesFileTypeMap` is the parameter `mimeType`.
- Netty's `HttpUtil.isKeepAlive` is the request field `keepAlive`.
- `request.method() != HttpMethod.GET` is a reference comparison in the
  Java code. It is modelled as a comparison of method names. Netty's decoder
  returns the shared `GET` constant for the name `GET`, so the two agree.
- The actual streaming by `ChunkedWriteHandler`, reading file bytes,
  back-pressure, and the progress listener's logging (lines 116-132) are not
  modelled. The model keeps the byte ranges and the final empty
  last-content marker, which is implicit in a `FileChunks` body.
- Bodies are character strings. The UTF-8 encoding of error bodies and the
  platform-default encoding of the listing (`getBytes()`) are not modelled.
- Java `char` is a UTF-16 code unit; Dafny `char` is a Unicode scalar value.
  No check of the handler depends on characters outside the Basic
  Multilingual Plane.
- Only the headers the handler sets are modelled (Content-Type,
  Content-Length, Connection, Location). The protocol version and the headers
  Netty adds are not.
- The echo servers and clients, the TLS server and its test client, and the
  buffer tests are not part of this model. They hold no logic beyond Netty
  configuration and logging.
