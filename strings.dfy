/**
 * The handful of Rust `str` operations the asset scanner relies on:
 * `contains` with a string pattern, `split` on a `char` (with `next` and
 * `last` on the resulting iterator) and `len`, which counts UTF-8 bytes.
 */
module Strings {

  /** `s.contains(pat)`: some window of `s` is exactly `pat`. */
  predicate Contains(s: string, pat: string) {
    exists i :: 0 <= i <= |s| && pat <= s[i..]
  }

  /** Glues pieces back together with `sep` between neighbours. */
  function Join(parts: seq<string>, sep: char): string
    requires |parts| >= 1
  {
    if |parts| == 1 then parts[0] else parts[0] + [sep] + Join(parts[1..], sep)
  }

  /**
   * The pieces `s.split(sep)` yields, in order. Like Rust's iterator it
   * always yields at least one piece: "" splits into [""], and a separator
   * at either end yields an empty piece there.
   */
  function Split(s: string, sep: char): (r: seq<string>)
    ensures |r| >= 1
    ensures forall i :: 0 <= i < |r| ==> sep !in r[i]
    ensures Join(r, sep) == s
    decreases |s|
  {
    if s == [] then [""]
    else
      var rest := Split(s[1..], sep);
      if s[0] == sep then
        assert ([""] + rest)[1..] == rest;
        [""] + rest
      else
        var r := [[s[0]] + rest[0]] + rest[1..];
        assert r[1..] == rest[1..];
        assert |rest| > 1 ==> Join(rest, sep) == rest[0] + [sep] + Join(rest[1..], sep);
        assert Join(r, sep) == [s[0]] + Join(rest, sep);
        assert [s[0]] + s[1..] == s;
        r
  }

  /** Splitting a string that starts with a separator-free `p` extends the first piece by `p`. */
  lemma {:induction false} SplitPrefix(p: string, t: string, sep: char)
    requires sep !in p
    ensures Split(p + t, sep) == [p + Split(t, sep)[0]] + Split(t, sep)[1..]
  {
    var tail := Split(t, sep);
    if p == [] {
      assert p + t == t;
      assert p + tail[0] == tail[0];
      assert [tail[0]] + tail[1..] == tail;
    } else {
      assert (p + t)[0] == p[0];
      assert (p + t)[1..] == p[1..] + t;
      SplitPrefix(p[1..], t, sep);
      assert [p[0]] + (p[1..] + Split(t, sep)[0]) == p + Split(t, sep)[0];
    }
  }

  /** A leading separator closes an empty first piece. */
  lemma SplitAtSeparator(rest: string, sep: char)
    ensures Split([sep] + rest, sep) == [""] + Split(rest, sep)
  {
    assert ([sep] + rest)[1..] == rest;
  }

  /** Join is the inverse of Split on pieces that hold no separator. */
  lemma {:induction false} SplitJoin(parts: seq<string>, sep: char)
    requires |parts| >= 1
    requires forall i :: 0 <= i < |parts| ==> sep !in parts[i]
    ensures Split(Join(parts, sep), sep) == parts
  {
    if |parts| == 1 {
      SplitPrefix(parts[0], "", sep);
      assert parts[0] + "" == parts[0];
    } else {
      var rest := Join(parts[1..], sep);
      SplitJoin(parts[1..], sep);
      SplitAtSeparator(rest, sep);
      SplitPrefix(parts[0], [sep] + rest, sep);
      assert parts[0] + [sep] + rest == parts[0] + ([sep] + rest);
      assert parts[0] + "" == parts[0];
      assert [parts[0]] + parts[1..] == parts;
    }
  }

  /** `r` is the text of `s` before its first `sep` (all of `s` when it has none). */
  predicate IsFirstPiece(s: string, sep: char, r: string) {
    && r <= s
    && sep !in r
    && (|r| < |s| ==> s[|r|] == sep)
  }

  /** `r` is the text of `s` after its last `sep` (all of `s` when it has none). */
  predicate IsLastPiece(s: string, sep: char, r: string) {
    && |r| <= |s|
    && s[|s| - |r|..] == r
    && sep !in r
    && (|r| < |s| ==> s[|s| - |r| - 1] == sep)
  }

  lemma {:induction false} JoinHead(parts: seq<string>, sep: char)
    requires |parts| >= 1
    ensures parts[0] <= Join(parts, sep)
    ensures |parts| > 1 ==> |Join(parts, sep)| > |parts[0]| && Join(parts, sep)[|parts[0]|] == sep
    ensures |parts| == 1 ==> Join(parts, sep) == parts[0]
  {
    if |parts| > 1 {
      assert Join(parts, sep) == parts[0] + ([sep] + Join(parts[1..], sep));
    }
  }

  lemma {:induction false} JoinTail(parts: seq<string>, sep: char)
    requires |parts| >= 1
    ensures var j, l := Join(parts, sep), parts[|parts| - 1];
      && |l| <= |j|
      && j[|j| - |l|..] == l
      && (|parts| > 1 ==> |l| < |j| && j[|j| - |l| - 1] == sep)
  {
    if |parts| > 1 {
      var l := parts[|parts| - 1];
      var tail := Join(parts[1..], sep);
      JoinTail(parts[1..], sep);
      assert parts[1..][|parts[1..]| - 1] == l;
      var j := parts[0] + [sep] + tail;
      assert j == Join(parts, sep);
      assert j[|j| - |tail|..] == tail;
      assert j[|j| - |l|..] == tail[|tail| - |l|..];
      if |parts| == 2 {
        assert tail == l;
        assert j[|j| - |l| - 1] == sep;
      } else {
        assert j[|j| - |l| - 1] == tail[|tail| - |l| - 1];
      }
    }
  }

  /** `s.split(sep).next()`; the iterator always yields a first piece. */
  function FirstPiece(s: string, sep: char): (r: string)
    ensures IsFirstPiece(s, sep, r)
  {
    var parts := Split(s, sep);
    JoinHead(parts, sep);
    parts[0]
  }

  /** `s.split(sep).last()`; the iterator always yields a last piece. */
  function LastPiece(s: string, sep: char): (r: string)
    ensures IsLastPiece(s, sep, r)
  {
    var parts := Split(s, sep);
    JoinTail(parts, sep);
    parts[|parts| - 1]
  }

  /** IsFirstPiece pins the piece down: FirstPiece is the only string that fits. */
  lemma FirstPieceUnique(s: string, sep: char, r: string)
    requires IsFirstPiece(s, sep, r)
    ensures r == FirstPiece(s, sep)
  {
  }

  /** IsLastPiece pins the piece down: LastPiece is the only string that fits. */
  lemma LastPieceUnique(s: string, sep: char, r: string)
    requires IsLastPiece(s, sep, r)
    ensures r == LastPiece(s, sep)
  {
  }

  /** Number of bytes of `c` in UTF-8. */
  function CharUtf8Len(c: char): (n: nat)
    ensures 1 <= n <= 4
  {
    if c as int < 0x80 then 1
    else if c as int < 0x800 then 2
    else if c as int < 0x1_0000 then 3
    else 4
  }

  /** `s.len()` for a Rust `String`: its length in UTF-8 bytes, not in chars. */
  function Utf8Len(s: string): (n: nat)
    ensures |s| <= n <= 4 * |s|
  {
    if s == [] then 0 else CharUtf8Len(s[0]) + Utf8Len(s[1..])
  }

  lemma {:induction false} Utf8LenAppend(a: string, b: string)
    ensures Utf8Len(a + b) == Utf8Len(a) + Utf8Len(b)
  {
    if a == [] {
      assert a + b == b;
    } else {
      assert (a + b)[0] == a[0];
      assert (a + b)[1..] == a[1..] + b;
      Utf8LenAppend(a[1..], b);
    }
  }

  /**
   * For a string that contains `pat`, being longer than `pat` in bytes is
   * the same as being longer in chars: the extra text is at least one char.
   */
  lemma LongerInBytesIffInChars(s: string, pat: string)
    requires Contains(s, pat)
    ensures Utf8Len(s) > Utf8Len(pat) <==> |s| > |pat|
  {
    var i :| 0 <= i <= |s| && pat <= s[i..];
    var before, after := s[..i], s[i + |pat|..];
    assert s[i..] == pat + after;
    assert s == before + s[i..];
    assert s == before + pat + after;
    Utf8LenAppend(before, pat);
    Utf8LenAppend(before + pat, after);
  }
}
