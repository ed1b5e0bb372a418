/**
 * `HttpFileServerHandler.sanitizeUri`: the check that turns a percent-decoded
 * request URI into a path under the server's working directory, or rejects
 * it (Java `null`).  The separator (`File.separatorChar`) and the working
 * directory (`System.getProperty("user.dir")`) are parameters.
 */
module Sanitizer {
  import opened Wrappers
  import opened Text

  /** Line terminators as java.util.regex knows them; `.` matches none of them. */
  predicate IsLineTerminator(c: char) {
    c == '\n' || c == '\r' || c == '\U{85}' || c == '\U{2028}' || c == '\U{2029}'
  }

  /** The character class `[<>&"]`. */
  predicate IsInsecureChar(c: char) {
    c == '<' || c == '>' || c == '&' || c == '"'
  }

  /** The regular expression `.*` matches the whole of `s`. */
  predicate DotStar(s: string) {
    forall i | 0 <= i < |s| :: !IsLineTerminator(s[i])
  }

  /**
   * `INSECURE_URI.matcher(s).matches()` for the pattern `.*[<>&"].*`, written
   * as the pattern's own structure: some split of `s` into a `.*` part, one
   * character of the class, and a second `.*` part.
   */
  predicate InsecureUri(s: string)
    ensures InsecureUri(s) ==> exists i | 0 <= i < |s| :: IsInsecureChar(s[i])
  {
    exists i | 0 <= i < |s| :: DotStar(s[..i]) && IsInsecureChar(s[i]) && DotStar(s[i + 1..])
  }

  /**
   * What the pattern really catches: a string that contains one of `<>&"`
   * AND no line terminator.  A line terminator anywhere defeats the whole
   * clause, because `matches()` must consume the entire input.
   */
  lemma InsecureUriMeaning(s: string)
    ensures InsecureUri(s) <==> DotStar(s) && exists i | 0 <= i < |s| :: IsInsecureChar(s[i])
  {
    if InsecureUri(s) {
      var i :| 0 <= i < |s| && DotStar(s[..i]) && IsInsecureChar(s[i]) && DotStar(s[i + 1..]);
      forall j | 0 <= j < |s| ensures !IsLineTerminator(s[j]) {
        if j < i {
          assert s[..i][j] == s[j];
        } else if j > i {
          assert s[i + 1..][j - i - 1] == s[j];
        }
      }
    }
    if DotStar(s) && exists i | 0 <= i < |s| :: IsInsecureChar(s[i]) {
      var i :| 0 <= i < |s| && IsInsecureChar(s[i]);
      assert DotStar(s[..i]) && DotStar(s[i + 1..]);
    }
  }

  /**
   * Every `.` of `u` sits strictly inside a segment: not first or last in
   * `u`, and not next to a separator.  This is the condition the four
   * dot clauses of sanitizeUri amount to.
   */
  predicate DotsInterior(u: string, sep: char) {
    forall i | 0 <= i < |u| && u[i] == '.' :: 0 < i < |u| - 1 && u[i - 1] != sep && u[i + 1] != sep
  }

  /** sanitizeUri, after decoding: `decoded` is the result of `URLDecoder.decode`. */
  function SanitizeUri(url: string, sep: char, userDir: string, decoded: string): (r: Option<string>)
    ensures r.Some? ==> |url| <= |decoded| && |decoded| > 0 && decoded[0] == '/'
    ensures r.Some? ==> |r.value| == |userDir| + 1 + |decoded| && r.value[|userDir|] == sep
  {
    if !StartsWith(decoded, url) then None
    else if !StartsWith(decoded, "/") then None
    else
      var uri := Replace(decoded, '/', sep);
      if Contains(uri, [sep, '.']) || Contains(uri, ['.', sep]) || StartsWith(uri, ".")
         || EndsWith(uri, ".") || InsecureUri(uri)
      then None
      else Some(userDir + [sep] + uri)
  }

  /** The four dot clauses together say exactly `DotsInterior`. */
  lemma DotClausesMeaning(u: string, sep: char)
    ensures (Contains(u, [sep, '.']) || Contains(u, ['.', sep]) || StartsWith(u, ".") || EndsWith(u, "."))
            <==> !DotsInterior(u, sep)
  {
    ContainsPair(u, sep, '.');
    ContainsPair(u, '.', sep);
    assert StartsWith(u, ".") <==> |u| > 0 && u[0] == '.' by {
      if |u| > 0 { assert u[..1] == [u[0]]; }
    }
    assert EndsWith(u, ".") <==> |u| > 0 && u[|u| - 1] == '.' by {
      if |u| > 0 { assert u[|u| - 1..] == [u[|u| - 1]]; }
    }
  }

  /**
   * The sanitiser as a whole, both directions: a decoded URI is accepted
   * exactly when it starts with the configured prefix and with `/`, and its
   * separator-mapped form keeps every dot inside a segment and does not match
   * INSECURE_URI; the accepted path is then the working directory, a
   * separator, and the mapped URI.
   */
  lemma {:induction false} SanitizeUriSpec(url: string, sep: char, userDir: string, decoded: string)
    ensures var uri := Replace(decoded, '/', sep);
      && (SanitizeUri(url, sep, userDir, decoded).Some? <==>
           StartsWith(decoded, url) && StartsWith(decoded, "/") && DotsInterior(uri, sep) && !InsecureUri(uri))
      && (SanitizeUri(url, sep, userDir, decoded).Some? ==>
           SanitizeUri(url, sep, userDir, decoded).value == userDir + [sep] + uri)
  {
    DotClausesMeaning(Replace(decoded, '/', sep), sep);
  }

  /** A URI outside the prefix, or not absolute, is rejected. */
  lemma RejectsOutsidePrefix(url: string, sep: char, userDir: string, decoded: string)
    requires !StartsWith(decoded, url) || !StartsWith(decoded, "/")
    ensures SanitizeUri(url, sep, userDir, decoded) == None
  {
  }

  /**
   * A URI whose mapped form holds `sep.` or `.sep`, starts or ends with `.`,
   * or matches INSECURE_URI is rejected.
   */
  lemma RejectsDotsAndInsecure(url: string, sep: char, userDir: string, decoded: string)
    requires var uri := Replace(decoded, '/', sep);
      Contains(uri, [sep, '.']) || Contains(uri, ['.', sep]) || StartsWith(uri, ".")
      || EndsWith(uri, ".") || InsecureUri(uri)
    ensures SanitizeUri(url, sep, userDir, decoded) == None
  {
  }

  /**
   * An accepted path lies under the working directory: it begins with
   * `userDir + sep`, and what follows is the mapped URI, which itself starts
   * with the separator.
   */
  lemma AcceptedUnderRoot(url: string, sep: char, userDir: string, decoded: string)
    requires SanitizeUri(url, sep, userDir, decoded).Some?
    ensures var path := SanitizeUri(url, sep, userDir, decoded).value;
      var uri := Replace(decoded, '/', sep);
      && StartsWith(path, userDir + [sep])
      && path[|userDir| + 1..] == uri
      && |uri| > 0 && uri[0] == sep
  {
    var path := SanitizeUri(url, sep, userDir, decoded).value;
    var uri := Replace(decoded, '/', sep);
    SanitizeUriSpec(url, sep, userDir, decoded);
    assert path == (userDir + [sep]) + uri;
    assert decoded[0] == '/' by {
      assert decoded[..1] == "/";
    }
  }

  /** When every dot is inside a segment, no segment starts or ends with a dot. */
  lemma {:induction false} InteriorDotsCleanSegments(u: string, sep: char)
    requires DotsInterior(u, sep)
    ensures forall seg <- Segments(u, sep) :: |seg| > 0 ==> seg[0] != '.' && seg[|seg| - 1] != '.'
    decreases |u|
  {
    if sep in u {
      var k := IndexOf(u, sep);
      var rest := u[k + 1..];
      forall j | 0 <= j < |rest| && rest[j] == '.'
        ensures 0 < j < |rest| - 1 && rest[j - 1] != sep && rest[j + 1] != sep
      {
        assert u[k + 1 + j] == '.';
      }
      InteriorDotsCleanSegments(rest, sep);
      var first := u[..k];
      if |first| > 0 {
        assert first[0] == u[0];
        assert first[|first| - 1] == u[k - 1];
      }
    }
  }

  /**
   * No traversal survives the sanitiser: every segment of an accepted
   * (separator-mapped) URI neither starts nor ends with a dot, so none is
   * `.` or `..`.
   */
  lemma NoTraversalAccepted(url: string, sep: char, userDir: string, decoded: string)
    requires SanitizeUri(url, sep, userDir, decoded).Some?
    ensures forall seg <- Segments(Replace(decoded, '/', sep), sep) ::
      seg != "." && seg != ".." && (|seg| > 0 ==> seg[0] != '.' && seg[|seg| - 1] != '.')
  {
    SanitizeUriSpec(url, sep, userDir, decoded);
    InteriorDotsCleanSegments(Replace(decoded, '/', sep), sep);
  }

  /**
   * Without a line terminator an accepted URI holds none of `<>&"`; this is
   * the promise INSECURE_URI makes.  (The platform separator is `/` or `\`,
   * never a line terminator.)
   */
  lemma AcceptedHasNoInsecureChar(url: string, sep: char, userDir: string, decoded: string)
    requires SanitizeUri(url, sep, userDir, decoded).Some?
    requires !IsLineTerminator(sep)
    requires forall i | 0 <= i < |decoded| :: !IsLineTerminator(decoded[i])
    ensures forall i | 0 <= i < |decoded| :: !IsInsecureChar(decoded[i])
  {
    var uri := Replace(decoded, '/', sep);
    SanitizeUriSpec(url, sep, userDir, decoded);
    assert !InsecureUri(uri);
    InsecureUriMeaning(uri);
    assert DotStar(uri) by {
      forall j | 0 <= j < |uri| ensures !IsLineTerminator(uri[j]) {
        assert uri[j] == sep || uri[j] == decoded[j];
      }
    }
    forall i | 0 <= i < |decoded| ensures !IsInsecureChar(decoded[i]) {
      if decoded[i] != '/' {
        assert uri[i] == decoded[i];
      }
    }
  }

  /** Mapping `/` to itself changes nothing (the POSIX separator). */
  lemma ReplaceSlashBySlash(s: string)
    ensures Replace(s, '/', '/') == s
  {
  }

  /**
   * The same promise fails once a line terminator is present: `/a` LF `<b`
   * (from `/a%0A%3Cb`) is accepted although it contains `<`.
   */
  lemma LineTerminatorHidesInsecureChar(userDir: string, d: string)
    requires d == "/a\n<b"
    ensures SanitizeUri("/", '/', userDir, d) == Some(userDir + "/" + d)
  {
    ReplaceSlashBySlash(d);
    assert !DotStar(d) by { assert IsLineTerminator(d[2]); }
    InsecureUriMeaning(d);
    assert DotsInterior(d, '/');
    SanitizeUriSpec("/", '/', userDir, d);
  }

  /** `/../etc/passwd` is rejected. */
  lemma RejectsParentOfRoot(userDir: string, d: string)
    requires d == "/../etc/passwd"
    ensures SanitizeUri("/", '/', userDir, d) == None
  {
    ReplaceSlashBySlash(d);
    assert StartsWith(d, "/") by { assert d[..1] == "/"; }
    assert Contains(d, "/.") by { assert OccursAt(d, "/.", 0); }
  }

  /** `/a/../../b` is rejected. */
  lemma RejectsNestedParent(userDir: string, d: string)
    requires d == "/a/../../b"
    ensures SanitizeUri("/", '/', userDir, d) == None
  {
    ReplaceSlashBySlash(d);
    assert StartsWith(d, "/") by { assert d[..1] == "/"; }
    assert Contains(d, "/.") by { assert OccursAt(d, "/.", 2); }
  }

  /** `/.hidden` is rejected. */
  lemma RejectsHiddenName(userDir: string, d: string)
    requires d == "/.hidden"
    ensures SanitizeUri("/", '/', userDir, d) == None
  {
    ReplaceSlashBySlash(d);
    assert StartsWith(d, "/") by { assert d[..1] == "/"; }
    assert Contains(d, "/.") by { assert OccursAt(d, "/.", 0); }
  }

  /** `/foo.` is rejected. */
  lemma RejectsTrailingDot(userDir: string, d: string)
    requires d == "/foo."
    ensures SanitizeUri("/", '/', userDir, d) == None
  {
    ReplaceSlashBySlash(d);
    assert StartsWith(d, "/") by { assert d[..1] == "/"; }
    assert EndsWith(d, ".") by { assert d[4..] == "."; }
  }

  /** `/a/b.txt` is absolute, keeps its dot inside a segment and holds nothing insecure. */
  lemma PlainFileIsClean(d: string)
    requires d == "/a/b.txt"
    ensures StartsWith(d, "/") && DotsInterior(d, '/') && !InsecureUri(d)
  {
    assert d[..1] == "/";
    InsecureUriMeaning(d);
    assert forall i | 0 <= i < |d| :: !IsInsecureChar(d[i]);
  }

  /** `/a/b.txt` is accepted and resolves under the working directory. */
  lemma AcceptsPlainFile(userDir: string, d: string)
    requires d == "/a/b.txt"
    ensures SanitizeUri("/", '/', userDir, d) == Some(userDir + "/" + d)
  {
    PlainFileIsClean(d);
    ReplaceSlashBySlash(d);
    DotClausesMeaning(d, '/');
  }




}
