/**
 The Python text primitives the receipt decoder is built from: `str.find`,
 `str.rfind`, slicing with negative and out-of-range indices, `str.split` on
 one separator character, its inverse `sep.join`, and `os.path.splitext` as
 the POSIX path module defines it.
 */
module Strings {

  /** `s.find(c)`: index of the first occurrence of `c`, or -1 when absent. */
  function Find(s: string, c: char): (r: int)
    ensures -1 <= r < |s|
    ensures r == -1 <==> c !in s
    ensures r >= 0 ==> s[r] == c && c !in s[..r]
  {
    if |s| == 0 then -1
    else if s[0] == c then 0
    else
      var k := Find(s[1..], c);
      assert k >= 0 ==> s[..k + 1] == [s[0]] + s[1..][..k];
      if k == -1 then -1 else k + 1
  }

  /** Any first occurrence is the one `Find` reports. */
  lemma FindAt(s: string, c: char, i: int)
    requires 0 <= i < |s| && s[i] == c && c !in s[..i]
    ensures Find(s, c) == i
  {
  }

  /** `s.rfind(c)`: index of the last occurrence of `c`, or -1 when absent. */
  function RFind(s: string, c: char): (r: int)
    ensures -1 <= r < |s|
    ensures r == -1 <==> c !in s
    ensures r >= 0 ==> s[r] == c && c !in s[r + 1..]
  {
    if |s| == 0 then -1
    else if s[|s| - 1] == c then |s| - 1
    else
      var k := RFind(s[..|s| - 1], c);
      assert s == s[..|s| - 1] + [s[|s| - 1]];
      assert k >= 0 ==> s[k + 1..] == s[..|s| - 1][k + 1..] + [s[|s| - 1]];
      k
  }

  /** Any last occurrence is the one `RFind` reports. */
  lemma RFindAt(s: string, c: char, i: int)
    requires 0 <= i < |s| && s[i] == c && c !in s[i + 1..]
    ensures RFind(s, c) == i
  {
  }

  /** Python's normalisation of one slice bound against a length `n`. */
  function Clamp(i: int, n: nat): (k: nat)
    ensures k <= n
  {
    if i < 0 then (if i + n < 0 then 0 else i + n)
    else if i > n then n
    else i
  }

  /** `s[i:j]`: negative bounds count from the end, bounds are clamped, and a
      slice whose start is not before its end is empty. */
  function Slice(s: string, i: int, j: int): (r: string)
    ensures |r| <= |s|
    ensures 0 <= i <= j <= |s| ==> r == s[i..j]
    ensures 0 <= i && -|s| <= j < 0 && i <= |s| + j ==> r == s[i..|s| + j]
    ensures 0 <= i && -|s| <= j < 0 && |s| + j < i ==> r == []
    ensures 0 <= j <= i ==> r == []
  {
    var lo, hi := Clamp(i, |s|), Clamp(j, |s|);
    if lo < hi then s[lo..hi] else []
  }

  /** `s.split(c)`: the maximal pieces of `s` between occurrences of `c`. */
  function SplitOn(s: string, c: char): (r: seq<string>)
    ensures |r| >= 1
    ensures forall k :: 0 <= k < |r| ==> c !in r[k]
    decreases |s|
  {
    if c !in s then [s]
    else
      var i := Find(s, c);
      [s[..i]] + SplitOn(s[i + 1..], c)
  }

  /** `c.join(segs)`. */
  function Join(segs: seq<string>, c: char): string
    requires |segs| >= 1
  {
    if |segs| == 1 then segs[0] else segs[0] + [c] + Join(segs[1..], c)
  }

  /** Joining the pieces of a split restores the text. */
  lemma {:induction false} JoinSplit(s: string, c: char)
    ensures Join(SplitOn(s, c), c) == s
    decreases |s|
  {
    if c in s {
      var i := Find(s, c);
      var rest := SplitOn(s[i + 1..], c);
      JoinSplit(s[i + 1..], c);
      assert ([s[..i]] + rest)[1..] == rest;
      assert s == s[..i] + [c] + s[i + 1..];
    }
  }

  /** Splitting a join of separator-free pieces gives back those pieces. */
  lemma {:induction false} SplitJoin(segs: seq<string>, c: char)
    requires |segs| >= 1
    requires forall k :: 0 <= k < |segs| ==> c !in segs[k]
    ensures SplitOn(Join(segs, c), c) == segs
    decreases |segs|
  {
    if |segs| > 1 {
      var s := Join(segs, c);
      var rest := Join(segs[1..], c);
      var i := |segs[0]|;
      assert s == segs[0] + [c] + rest;
      assert s[..i] == segs[0];
      assert s[i] == c;
      FindAt(s, c, i);
      assert s[i + 1..] == rest;
      SplitJoin(segs[1..], c);
      assert segs == [segs[0]] + segs[1..];
    }
  }

  /** `s.split(c)` has one piece more than `s` has occurrences of `c`. */
  lemma {:induction false} SegmentCount(s: string, c: char)
    ensures |SplitOn(s, c)| == multiset(s)[c] + 1
    decreases |s|
  {
    if c in s {
      var i := Find(s, c);
      SegmentCount(s[i + 1..], c);
      assert |SplitOn(s, c)| == 1 + |SplitOn(s[i + 1..], c)|;
      assert s == s[..i] + [c] + s[i + 1..];
      assert multiset(s)[c] == multiset(s[..i])[c] + 1 + multiset(s[i + 1..])[c];
      assert multiset(s[..i])[c] == 0;
    } else {
      assert multiset(s)[c] == 0;
    }
  }

  /** A separator absent from every piece is absent from their join. */
  lemma {:induction false} JoinAvoids(segs: seq<string>, c: char, d: char)
    requires |segs| >= 1 && c != d
    requires forall k :: 0 <= k < |segs| ==> d !in segs[k]
    ensures d !in Join(segs, c)
    decreases |segs|
  {
    if |segs| > 1 {
      JoinAvoids(segs[1..], c, d);
    }
  }

  /** Some character of `p[lo..hi]` is not a dot. */
  predicate HasNonDot(p: string, lo: int, hi: int)
  {
    exists k :: lo <= k < hi && 0 <= k < |p| && p[k] != '.'
  }

  /** `os.path.splitext(p)` (POSIX): the extension starts at the last dot of
      the last path component, unless everything before that dot in the
      component is dots (a hidden file such as ".pdf" has no extension). */
  function SplitExt(p: string): (r: (string, string))
    ensures r.0 + r.1 == p
    ensures r.1 == [] || (r.1[0] == '.' && '.' !in r.1[1..] && '/' !in r.1)
    ensures '.' !in p ==> r.1 == []
  {
    var sep, dot := RFind(p, '/'), RFind(p, '.');
    if dot > sep && HasNonDot(p, sep + 1, dot) then
      assert '/' !in p[dot..] by {
        if sep >= 0 {
          assert p[dot..] == p[sep + 1..][dot - sep - 1..];
        }
      }
      assert p[dot..][1..] == p[dot + 1..];
      (p[..dot], p[dot..])
    else
      (p, [])
  }

  /** A stem without slashes that does not start with a dot, followed by a
      dot and a suffix free of dots and slashes, splits at that dot. */
  lemma SplitExtOf(stem: string, suffix: string)
    requires |stem| > 0 && stem[0] != '.' && '/' !in stem
    requires '.' !in suffix && '/' !in suffix
    ensures SplitExt(stem + ['.'] + suffix) == (stem, ['.'] + suffix)
  {
    var p := stem + ['.'] + suffix;
    assert p[|stem| + 1..] == suffix;
    RFindAt(p, '.', |stem|);
    assert '/' !in p;
    assert HasNonDot(p, 0, |stem|) by { assert p[0] == stem[0]; }
    assert p[..|stem|] == stem;
    assert p[|stem|..] == ['.'] + suffix;
  }
}
