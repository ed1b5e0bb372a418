/**
 * The handful of java.lang.String operations the file handler relies on
 * (startsWith, endsWith, contains, replace(char, char)), and the split of a
 * path into separator-delimited segments that the traversal argument is
 * stated with.
 */
module Text {

  /** `s.startsWith(prefix)` */
  predicate StartsWith(s: string, prefix: string)
    ensures StartsWith(s, prefix) <==> |prefix| <= |s| && forall i | 0 <= i < |prefix| :: s[i] == prefix[i]
  {
    |prefix| <= |s| && s[..|prefix|] == prefix
  }

  /** `s.endsWith(suffix)` */
  predicate EndsWith(s: string, suffix: string)
    ensures EndsWith(s, suffix) <==> |suffix| <= |s| && forall i | 0 <= i < |suffix| :: s[|s| - |suffix| + i] == suffix[i]
  {
    |suffix| <= |s| && s[|s| - |suffix|..] == suffix
  }

  /** `t` occurs in `s` starting at index `i`. */
  predicate OccursAt(s: string, t: string, i: int) {
    0 <= i && i + |t| <= |s| && s[i..i + |t|] == t
  }

  /** A concatenation starts with its first part and ends with its second. */
  lemma ConcatEnds(a: string, b: string)
    ensures StartsWith(a + b, a) && EndsWith(a + b, b)
  {
    assert (a + b)[..|a|] == a;
    assert (a + b)[|a|..] == b;
  }

  /** `s.contains(t)` */
  predicate Contains(s: string, t: string)
    ensures Contains(s, t) ==> |t| <= |s|
    ensures StartsWith(s, t) || EndsWith(s, t) ==> Contains(s, t)
  {
    assert StartsWith(s, t) ==> OccursAt(s, t, 0);
    assert EndsWith(s, t) ==> OccursAt(s, t, |s| - |t|);
    exists i | 0 <= i <= |s| - |t| :: OccursAt(s, t, i)
  }

  /** A two-character needle occurs iff some adjacent pair of `s` spells it. */
  lemma ContainsPair(s: string, a: char, b: char)
    ensures Contains(s, [a, b]) <==> exists i | 0 <= i < |s| - 1 :: s[i] == a && s[i + 1] == b
  {
    if Contains(s, [a, b]) {
      var i :| 0 <= i <= |s| - 2 && OccursAt(s, [a, b], i);
      assert s[i..i + 2][0] == s[i] && s[i..i + 2][1] == s[i + 1];
    }
    if exists i | 0 <= i < |s| - 1 :: s[i] == a && s[i + 1] == b {
      var i :| 0 <= i < |s| - 1 && s[i] == a && s[i + 1] == b;
      assert s[i..i + 2] == [a, b];
      assert OccursAt(s, [a, b], i);
    }
  }

  /** `s.replace(from, to)`: every occurrence of one character replaced by another. */
  function Replace(s: string, from: char, to: char): (r: string)
    ensures |r| == |s|
    ensures forall i | 0 <= i < |s| :: r[i] == if s[i] == from then to else s[i]
  {
    if s == [] then [] else [if s[0] == from then to else s[0]] + Replace(s[1..], from, to)
  }

  /** Index of the first occurrence of `c` in `s`. */
  function IndexOf(s: string, c: char): (k: nat)
    requires c in s
    ensures k < |s| && s[k] == c && c !in s[..k]
  {
    if s[0] == c then 0
    else
      assert s == [s[0]] + s[1..];
      var k := 1 + IndexOf(s[1..], c);
      assert s[..k] == [s[0]] + s[1..][..k - 1];
      k
  }

  /**
   * The segments of a path: the maximal runs of `s` that hold no separator,
   * in order.  A leading separator yields an empty first segment.
   */
  function Segments(s: string, sep: char): (parts: seq<string>)
    ensures |parts| > 0
    ensures forall p <- parts :: sep !in p
    decreases |s|
  {
    if sep in s then
      var k := IndexOf(s, sep);
      [s[..k]] + Segments(s[k + 1..], sep)
    else
      [s]
  }

  /** Segments glued back together with the separator between them. */
  function Join(parts: seq<string>, sep: char): string
    decreases |parts|
  {
    if |parts| == 0 then ""
    else if |parts| == 1 then parts[0]
    else parts[0] + [sep] + Join(parts[1..], sep)
  }

  /** Joining a non-empty tail after one more part puts one separator between them. */
  lemma JoinCons(head: string, rest: seq<string>, sep: char)
    requires |rest| > 0
    ensures Join([head] + rest, sep) == head + [sep] + Join(rest, sep)
  {
    assert ([head] + rest)[1..] == rest;
  }

  /** Splitting loses nothing: the segments are a faithful decomposition of the path. */
  lemma {:induction false} JoinSegments(s: string, sep: char)
    ensures Join(Segments(s, sep), sep) == s
    decreases |s|
  {
    if sep in s {
      var k := IndexOf(s, sep);
      var rest := Segments(s[k + 1..], sep);
      calc {
        Join(Segments(s, sep), sep);
        Join([s[..k]] + rest, sep);
        { JoinCons(s[..k], rest, sep); }
        s[..k] + [sep] + Join(rest, sep);
        { JoinSegments(s[k + 1..], sep); }
        s[..k] + [sep] + s[k + 1..];
        s;
      }
    } else {
      assert Segments(s, sep) == [s];
    }
  }
}
