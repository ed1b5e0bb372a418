/**
 * The HTTP responses the file handler writes, as descriptors: status,
 * the four headers it sets, the body, and whether the connection is closed
 * once the response is flushed.  Also the byte ranges in which Netty's
 * `ChunkedFile` streams a file.
 */
module Responses {
  import opened Wrappers
  import opened Text

  /** The statuses the handler uses, with Netty's reason phrases. */
  datatype Status = OK | Found | BadRequest | Forbidden | NotFound | MethodNotAllowed | InternalServerError
  {
    function Code(): nat {
      match this
      case OK => 200
      case Found => 302
      case BadRequest => 400
      case Forbidden => 403
      case NotFound => 404
      case MethodNotAllowed => 405
      case InternalServerError => 500
    }

    function ReasonPhrase(): string {
      match this
      case OK => "OK"
      case Found => "Found"
      case BadRequest => "Bad Request"
      case Forbidden => "Forbidden"
      case NotFound => "Not Found"
      case MethodNotAllowed => "Method Not Allowed"
      case InternalServerError => "Internal Server Error"
    }

    /** `HttpResponseStatus.toString()`: the code, a space, the reason phrase. */
    function ToString(): string {
      ThreeDigits(Code()) + " " + ReasonPhrase()
    }

    predicate IsError() {
      Code() >= 400
    }
  }

  /** Decimal text of a three-digit status code. */
  function ThreeDigits(n: nat): (s: string)
    requires 100 <= n <= 999
    ensures |s| == 3
    ensures forall i | 0 <= i < 3 :: '0' <= s[i] <= '9'
    ensures (s[0] as int - '0' as int) * 100 + (s[1] as int - '0' as int) * 10 + (s[2] as int - '0' as int) == n
  {
    [Digit(n / 100), Digit(n / 10 % 10), Digit(n % 10)]
  }

  function Digit(d: nat): (c: char)
    requires d < 10
    ensures '0' <= c <= '9' && c as int - '0' as int == d
  {
    (d + '0' as int) as char
  }

  /** The headers the handler sets; every other header is absent. */
  datatype Headers = Headers(
    contentType: Option<string>,
    contentLength: Option<nat>,
    connection: Option<string>,
    location: Option<string>)

  /** The byte range `[offset, offset + size)` of one chunk of a streamed file. */
  datatype Range = Range(offset: nat, size: nat)

  /**
   * A response body: nothing, a text (sent as one buffer), or a file streamed
   * in byte ranges and followed by the empty last-content marker.
   */
  datatype Body = NoContent | TextBody(text: string) | FileChunks(path: string, chunks: seq<Range>)

  datatype Response = Response(status: Status, headers: Headers, body: Body, closeAfter: bool)

  const PlainText := "text/plain; charset=UTF-8"
  const HtmlText := "text/html; charset=UTF-8"
  const KeepAlive := "keep-alive"
  const ChunkSize: nat := 8192

  /** `sendError`: a plain-text body naming the status; the connection is closed. */
  function SendError(status: Status): (r: Response)
    ensures r.status == status && r.closeAfter
    ensures r.headers.contentType == Some(PlainText) && r.headers.location == None
    ensures r.body.TextBody?
  {
    Response(status, Headers(Some(PlainText), None, None, None),
             TextBody("Failure: " + status.ToString() + "\r\n"), true)
  }

  /** The error body names the status: `Failure: `, its three-digit code, a space, its reason phrase, CRLF. */
  lemma ErrorBodyNamesStatus(status: Status)
    ensures StartsWith(SendError(status).body.text, "Failure: " + ThreeDigits(status.Code()) + " ")
    ensures EndsWith(SendError(status).body.text, status.ReasonPhrase() + "\r\n")
  {
    var head := "Failure: " + ThreeDigits(status.Code()) + " ";
    var tail := status.ReasonPhrase() + "\r\n";
    assert SendError(status).body.text == head + tail;
    ConcatEnds(head, tail);
  }

  /** `sendRedirect`: 302 with `Location` set to the new URI; the connection is closed. */
  function SendRedirect(newUri: string): (r: Response)
    ensures r.status.Code() == 302 && r.headers.location == Some(newUri)
    ensures r.body == NoContent && r.closeAfter
  {
    Response(Found, Headers(None, None, None, Some(newUri)), NoContent, true)
  }

  /**
   * The chunks `ChunkedFile` reads from `[offset, end)`: each of
   * `min(chunkSize, end - offset)` bytes, until the end offset is reached.
   */
  function ChunkRanges(offset: nat, end: nat, chunkSize: nat): (r: seq<Range>)
    requires chunkSize > 0
    ensures offset < end <==> |r| > 0
    ensures forall k | 0 <= k < |r| ::
      && 0 < r[k].size <= chunkSize
      && offset <= r[k].offset
      && r[k].offset + r[k].size <= end
    decreases end - offset
  {
    if offset < end then
      var n := if chunkSize < end - offset then chunkSize else end - offset;
      [Range(offset, n)] + ChunkRanges(offset + n, end, chunkSize)
    else
      []
  }

  /** `rs` are non-empty ranges that follow one another and cover exactly `[lo, hi)`. */
  predicate Tiles(rs: seq<Range>, lo: nat, hi: nat)
    decreases |rs|
  {
    if rs == [] then lo == hi
    else rs[0].offset == lo && rs[0].size > 0 && Tiles(rs[1..], lo + rs[0].size, hi)
  }

  /**
   * The chunks of a file cover every byte of `[lo, hi)` once, in order; each
   * holds at most `chunkSize` bytes and all but the last exactly that many.
   */
  lemma {:induction false} ChunkRangesTile(lo: nat, hi: nat, chunkSize: nat)
    requires chunkSize > 0 && lo <= hi
    ensures var rs := ChunkRanges(lo, hi, chunkSize);
      && Tiles(rs, lo, hi)
      && (forall k | 0 <= k < |rs| :: rs[k].size <= chunkSize)
      && (forall k | 0 <= k < |rs| - 1 :: rs[k].size == chunkSize)
    decreases hi - lo
  {
    if lo < hi {
      var n := if chunkSize < hi - lo then chunkSize else hi - lo;
      ChunkRangesTile(lo + n, hi, chunkSize);
      var rest := ChunkRanges(lo + n, hi, chunkSize);
      var rs := ChunkRanges(lo, hi, chunkSize);
      assert rs == [Range(lo, n)] + rest;
      assert rs[1..] == rest;
      if n < chunkSize {
        assert rest == [];
      }
    }
  }

  /** The number of ranges tiling `[lo, hi)` bounds the bytes they cover. */
  lemma {:induction false} TilesCover(rs: seq<Range>, lo: nat, hi: nat, chunkSize: nat)
    requires Tiles(rs, lo, hi)
    requires forall k | 0 <= k < |rs| :: rs[k].size <= chunkSize
    requires forall k | 0 <= k < |rs| - 1 :: rs[k].size == chunkSize
    ensures lo <= hi
    ensures |rs| > 0 ==> (|rs| - 1) * chunkSize < hi - lo <= |rs| * chunkSize
    decreases |rs|
  {
    if rs != [] {
      TilesCover(rs[1..], lo + rs[0].size, hi, chunkSize);
    }
  }
}
