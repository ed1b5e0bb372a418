/**
 * `sendListing`: the HTML page listing a directory.  A fixed parent link
 * comes first, then one anchor per entry that is visible, readable and has
 * an allowed name, in the order `listFiles` returned them.
 */
module Listing {
  import opened Wrappers
  import opened Text
  import opened Responses

  /** What `sendListing` asks of each `File` that `listFiles` returned. */
  datatype Entry = Entry(name: string, hidden: bool, readable: bool)

  predicate IsAsciiAlnum(c: char) {
    ('A' <= c <= 'Z') || ('a' <= c <= 'z') || ('0' <= c <= '9')
  }

  /** `ALLOWED_FILE_NAME.matcher(name).matches()` for `[A-Za-z0-9][-_A-Za-z0-9\.]*`. */
  predicate AllowedFileName(name: string)
    ensures AllowedFileName(name) ==> |name| > 0 && name[0] != '.' && forall k | 0 <= k < |name| ::
      name[k] != '/' && name[k] != '<' && name[k] != '>' && name[k] != '&' && name[k] != '"'
  {
    && |name| > 0
    && IsAsciiAlnum(name[0])
    && forall i | 1 <= i < |name| :: IsAsciiAlnum(name[i]) || name[i] == '-' || name[i] == '_' || name[i] == '.'
  }

  /** The loop's filter: entries that survive both `continue`s. */
  predicate Shown(e: Entry) {
    !e.hidden && e.readable && AllowedFileName(e.name)
  }

  /** The names the page links to, in listing order. */
  function VisibleNames(files: seq<Entry>): (names: seq<string>)
    ensures |names| <= |files|
    ensures (forall e <- files :: Shown(e)) ==> |names| == |files|
  {
    if files == [] then []
    else (if Shown(files[0]) then [files[0].name] else []) + VisibleNames(files[1..])
  }

  /** How many entries of `files` the loop's filter lets through, counted one entry at a time. */
  function CountShown(files: seq<Entry>): nat {
    if files == [] then 0 else (if Shown(files[0]) then 1 else 0) + CountShown(files[1..])
  }

  /** Title and heading, both naming the directory's path. */
  function Prologue(dirPath: string): string {
    "<!DOCTYPE html>\r\n"
    + "<html><head><title>" + dirPath + " 目 录: " + "</title></head><body>"
    + "<h3>" + dirPath + " 目 录: " + "</h3>\r\n"
    + "<ul>"
  }

  const ParentLink := "<li>链接：<a href=\"../\">..</a></li>\r\n"
  const Epilogue := "</ul></body></html>\r\n"

  function Anchor(name: string): string {
    "<li>链接：<a href=\"" + name + "\">" + name + "</a></li>\r\n"
  }

  function Anchors(names: seq<string>): string {
    if names == [] then "" else Anchor(names[0]) + Anchors(names[1..])
  }

  /** The page `sendListing` renders. */
  function ListingPage(dirPath: string, files: seq<Entry>): (page: string)
    ensures StartsWith(page, Prologue(dirPath) + ParentLink) && EndsWith(page, Epilogue)
  {
    Prologue(dirPath) + ParentLink + Anchors(VisibleNames(files)) + Epilogue
  }

  /** The response: 500 when `listFiles` returned null, else the page, closing the connection. */
  function ListingResponse(dirPath: string, files: Option<seq<Entry>>): (r: Response)
    ensures r.closeAfter && r.body.TextBody?
    ensures r.status == OK <==> files.Some?
    ensures files.None? ==> r == SendError(InternalServerError)
    ensures files.Some? ==> r.headers.contentType == Some(HtmlText) && r.body.text == ListingPage(dirPath, files.value)
  {
    match files
    case None => SendError(InternalServerError)
    case Some(fs) => Response(OK, Headers(Some(HtmlText), None, None, None), TextBody(ListingPage(dirPath, fs)), true)
  }

  lemma {:induction false} VisibleNamesSnoc(files: seq<Entry>, e: Entry)
    ensures VisibleNames(files + [e]) == VisibleNames(files) + (if Shown(e) then [e.name] else [])
    decreases |files|
  {
    if files != [] {
      assert (files + [e])[0] == files[0];
      assert (files + [e])[1..] == files[1..] + [e];
      VisibleNamesSnoc(files[1..], e);
    }
  }

  lemma {:induction false} AnchorsSnoc(names: seq<string>, n: string)
    ensures Anchors(names + [n]) == Anchors(names) + Anchor(n)
    decreases |names|
  {
    if names != [] {
      assert (names + [n])[1..] == names[1..] + [n];
      AnchorsSnoc(names[1..], n);
    }
  }

  /** The names linked from the first `i + 1` entries extend those from the first `i`. */
  lemma VisibleNamesStep(files: seq<Entry>, i: nat)
    requires i < |files|
    ensures VisibleNames(files[..i + 1])
            == VisibleNames(files[..i]) + (if Shown(files[i]) then [files[i].name] else [])
  {
    assert files[..i + 1] == files[..i] + [files[i]];
    VisibleNamesSnoc(files[..i], files[i]);
  }

  lemma AnchorsStep(head: string, names: seq<string>, name: string)
    ensures head + Anchors(names) + Anchor(name) == head + Anchors(names + [name])
  {
    AnchorsSnoc(names, name);
  }

  /** Appending the pieces of one anchor, one after another, appends the anchor. */
  lemma AppendAnchor(buffer: string, name: string)
    ensures buffer + "<li>链接：<a href=\"" + name + "\">" + name + "</a></li>\r\n" == buffer + Anchor(name)
  {
  }

  /** Appending the pieces of the page head, one after another, gives the prologue and the parent link. */
  lemma AppendHead(dirPath: string)
    ensures "" + "<!DOCTYPE html>\r\n" + "<html><head><title>" + dirPath + " 目 录: " + "</title></head><body>"
            + "<h3>" + dirPath + " 目 录: " + "</h3>\r\n" + "<ul>" + "<li>链接：<a href=\"../\">..</a></li>\r\n"
            == Prologue(dirPath) + ParentLink
  {
  }

  /**
   * `sendListing(ctx, dir)` with `dirPath = dir.getPath()` and
   * `files = dir.listFiles()` (`null` when the directory cannot be listed).
   * The page is built by appending to a buffer, entry by entry.
   */
  method SendListing(dirPath: string, files: array?<Entry>) returns (resp: Response)
    ensures resp == ListingResponse(dirPath, if files == null then None else Some(files[..]))
  {
    if files == null {
      return SendError(InternalServerError);
    }
    var buffer: string := "";
    buffer := buffer + "<!DOCTYPE html>\r\n";
    buffer := buffer + "<html><head><title>";
    buffer := buffer + dirPath + " 目 录: ";
    buffer := buffer + "</title></head><body>";
    buffer := buffer + "<h3>";
    buffer := buffer + dirPath + " 目 录: ";
    buffer := buffer + "</h3>\r\n";
    buffer := buffer + "<ul>";
    buffer := buffer + "<li>链接：<a href=\"../\">..</a></li>\r\n";
    AppendHead(dirPath);
    ghost var head := Prologue(dirPath) + ParentLink;
    ghost var entries := files[..];
    for i := 0 to files.Length
      invariant buffer == head + Anchors(VisibleNames(entries[..i]))
    {
      var f := files[i];
      ghost var shownBefore := VisibleNames(entries[..i]);
      assert f == entries[i];
      VisibleNamesStep(entries, i);
      if f.hidden || !f.readable {
        assert VisibleNames(entries[..i + 1]) == shownBefore;
        continue;
      }
      var name := f.name;
      if !AllowedFileName(name) {
        assert VisibleNames(entries[..i + 1]) == shownBefore;
        continue;
      }
      ghost var before := buffer;
      buffer := buffer + "<li>链接：<a href=\"";
      buffer := buffer + name;
      buffer := buffer + "\">";
      buffer := buffer + name;
      buffer := buffer + "</a></li>\r\n";
      AppendAnchor(before, name);
      AnchorsStep(head, shownBefore, name);
    }
    assert entries[..files.Length] == entries;
    buffer := buffer + "</ul></body></html>\r\n";
    resp := Response(OK, Headers(Some(HtmlText), None, None, None), TextBody(buffer), true);
  }

  /** One link per shown entry. */
  lemma {:induction false} VisibleNamesCount(files: seq<Entry>)
    ensures |VisibleNames(files)| == CountShown(files)
    decreases |files|
  {
    if files != [] {
      VisibleNamesCount(files[1..]);
    }
  }

  /**
   * Listing order: the shown entry at index `i` of `files` is linked at the
   * position given by the number of shown entries before it.  With the count
   * above, the links are exactly the shown entries, in `listFiles` order.
   */
  lemma {:induction false} VisibleNamesOrder(files: seq<Entry>, i: nat)
    requires i < |files| && Shown(files[i])
    ensures CountShown(files[..i]) < |VisibleNames(files)|
    ensures VisibleNames(files)[CountShown(files[..i])] == files[i].name
    decreases |files|
  {
    VisibleNamesCount(files);
    if i > 0 {
      var tail := files[1..];
      assert files[..i] == [files[0]] + tail[..i - 1];
      assert files[..i][1..] == tail[..i - 1];
      VisibleNamesOrder(tail, i - 1);
    }
  }

  /** A name is linked iff some shown entry carries it. */
  lemma {:induction false} VisibleNamesMembers(files: seq<Entry>, n: string)
    ensures n in VisibleNames(files) <==> exists i | 0 <= i < |files| :: Shown(files[i]) && files[i].name == n
    decreases |files|
  {
    if files != [] {
      VisibleNamesMembers(files[1..], n);
      if exists i | 0 <= i < |files[1..]| :: Shown(files[1..][i]) && files[1..][i].name == n {
        var i :| 0 <= i < |files[1..]| && Shown(files[1..][i]) && files[1..][i].name == n;
        assert files[i + 1] == files[1..][i];
      }
      if exists i | 0 <= i < |files| :: Shown(files[i]) && files[i].name == n {
        var i :| 0 <= i < |files| && Shown(files[i]) && files[i].name == n;
        if i > 0 {
          assert files[1..][i - 1] == files[i];
        }
      }
    }
  }

  /**
   * With nothing to show (an empty directory in particular) the page holds
   * the parent link and no other anchor.
   */
  lemma {:induction false} NothingShownOnlyParentLink(dirPath: string, files: seq<Entry>)
    requires forall e <- files :: !Shown(e)
    ensures ListingPage(dirPath, files) == Prologue(dirPath) + ParentLink + Epilogue
    decreases |files|
  {
    if files != [] {
      assert files[0] in files;
      NothingShownOnlyParentLink(dirPath, files[1..]);
    }
  }

  /**
   * Every linked name is markup-safe (none of `<>&"`) and is never `.` or
   * `..`, since it starts with a letter or digit: only the fixed parent link
   * points upwards.
   */
  lemma VisibleNamesAreSafe(files: seq<Entry>)
    ensures forall n <- VisibleNames(files) ::
      AllowedFileName(n) && n != "." && n != ".." &&
      forall k | 0 <= k < |n| :: n[k] != '<' && n[k] != '>' && n[k] != '&' && n[k] != '"'
  {
    forall n <- VisibleNames(files)
      ensures AllowedFileName(n)
    {
      VisibleNamesMembers(files, n);
    }
  }
}
