/** The interval algebra of the buyer transfer ledger.

    A list of segments stands for a function from byte positions to counts.  `Canonical` lists
    are sorted, disjoint, positive and maximal; such a list is determined by the counts it stands
    for (`CanonicalUnique`), so a method that promises a canonical result with given counts has
    said exactly which list it returns. */
module Segments {

  /** Bytes `a..b` inclusive, each counted `c` times. */
  datatype Segment = Segment(a: int, b: int, c: int)

  function Max(x: int, y: int): int { if x >= y then x else y }

  function Min(x: int, y: int): int { if x <= y then x else y }

  /** The count of byte `x`: that of the first segment holding it. */
  function Count(s: seq<Segment>, x: int): int
  {
    if s == [] then 0
    else if s[0].a <= x <= s[0].b then s[0].c
    else Count(s[1..], x)
  }

  /** Sorted, disjoint, nonempty and positive. */
  ghost predicate Ordered(s: seq<Segment>)
  {
    && (forall i :: 0 <= i < |s| ==> s[i].a <= s[i].b && 0 < s[i].c)
    && (forall i, j :: 0 <= i < j < |s| ==> s[i].b < s[j].a)
  }

  /** Ordered, and no two segments that touch have the same count. */
  ghost predicate Canonical(s: seq<Segment>)
  {
    && Ordered(s)
    && (forall i, j :: 0 <= i < j < |s| && s[i].c == s[j].c ==> s[i].b + 1 < s[j].a)
  }

  /** Every count is one: the shape of the `transmitted` table. */
  ghost predicate Unit(s: seq<Segment>)
  {
    Canonical(s) && forall i :: 0 <= i < |s| ==> s[i].c == 1
  }

  /** The count `delta` more inside `a..b`, and never below zero. */
  function Shifted(n: int, x: int, a: int, b: int, delta: int): int
  {
    Max(0, n + if a <= x <= b then delta else 0)
  }

  // ------------------------------------------------------------------ counts of canonical lists

  lemma {:induction false} CountAt(s: seq<Segment>, i: int, x: int)
    requires Ordered(s) && 0 <= i < |s| && s[i].a <= x <= s[i].b
    ensures Count(s, x) == s[i].c
  {
    if i > 0 { CountAt(s[1..], i - 1, x); }
  }

  lemma {:induction false} CountOutside(s: seq<Segment>, x: int)
    requires forall i :: 0 <= i < |s| ==> !(s[i].a <= x <= s[i].b)
    ensures Count(s, x) == 0
  {
    if s != [] { CountOutside(s[1..], x); }
  }

  lemma {:induction false} CountFind(s: seq<Segment>, x: int) returns (i: int)
    requires Count(s, x) != 0
    ensures 0 <= i < |s| && s[i].a <= x <= s[i].b && Count(s, x) == s[i].c
  {
    if s[0].a <= x <= s[0].b {
      i := 0;
    } else {
      i := CountFind(s[1..], x);
      i := i + 1;
    }
  }

  lemma CountNonNegative(s: seq<Segment>, x: int)
    requires Ordered(s)
    ensures 0 <= Count(s, x)
  {
    if Count(s, x) != 0 { var i := CountFind(s, x); }
  }

  lemma {:induction false} CountAppend(s: seq<Segment>, g: Segment, x: int)
    requires forall i :: 0 <= i < |s| ==> s[i].b < g.a
    ensures Count(s + [g], x) == if g.a <= x <= g.b then g.c else Count(s, x)
  {
    if s == [] {
      assert s + [g] == [g];
    } else {
      assert (s + [g])[1..] == s[1..] + [g];
      CountAppend(s[1..], g, x);
    }
  }

  lemma CanonicalTail(s: seq<Segment>, x: int)
    requires Canonical(s) && s != []
    ensures Canonical(s[1..])
    ensures Count(s[1..], x) == if x <= s[0].b then 0 else Count(s, x)
  {
    if x <= s[0].b { CountOutside(s[1..], x); }
  }

  /** A canonical list is determined by its counts. */
  lemma {:induction false} CanonicalUnique(s: seq<Segment>, t: seq<Segment>)
    requires Canonical(s) && Canonical(t)
    requires forall x :: Count(s, x) == Count(t, x)
    ensures s == t
  {
    HeadCounts(s);
    HeadCounts(t);
    if s != [] && t != [] {
      HeadReaches(s, t);
      HeadReaches(t, s);
      forall x ensures Count(s[1..], x) == Count(t[1..], x) {
        CanonicalTail(s, x);
        CanonicalTail(t, x);
      }
      CanonicalTail(s, 0);
      CanonicalTail(t, 0);
      CanonicalUnique(s[1..], t[1..]);
      assert s == [s[0]] + s[1..] && t == [t[0]] + t[1..];
    }
  }

  lemma HeadCounts(s: seq<Segment>)
    requires Ordered(s)
    ensures s != [] ==> 0 < Count(s, s[0].a)
  {
  }

  /** The first segment of `t` starts no later and ends no earlier than that of `s`. */
  lemma HeadReaches(s: seq<Segment>, t: seq<Segment>)
    requires Canonical(s) && Canonical(t) && s != [] && t != []
    requires forall x :: Count(s, x) == Count(t, x)
    ensures t[0].a <= s[0].a
    ensures s[0].a == t[0].a ==> s[0].c == t[0].c && s[0].b <= t[0].b
  {
    assert Count(s, s[0].a) == s[0].c;
    var i := CountFind(t, s[0].a);
    if s[0].a == t[0].a {
      NextDiffers(t);
      assert Count(s, t[0].b + 1) != s[0].c;
    }
  }

  lemma NextDiffers(t: seq<Segment>)
    requires Canonical(t) && t != []
    ensures Count(t, t[0].b + 1) != t[0].c
  {
    if Count(t, t[0].b + 1) != 0 { var j := CountFind(t, t[0].b + 1); }
  }

  // ------------------------------------------------------------------ sorting of the end points

  ghost predicate Ascending(p: seq<int>)
  {
    forall i, j :: 0 <= i < j < |p| ==> p[i] <= p[j]
  }

  function Insert(v: int, p: seq<int>): (r: seq<int>)
    requires Ascending(p)
    ensures Ascending(r)
    ensures forall x :: x in r <==> x == v || x in p
  {
    if p == [] then [v]
    else if v <= p[0] then [v] + p
    else
      var r := Insert(v, p[1..]);
      assert p == [p[0]] + p[1..];
      assert forall i :: 0 <= i < |r| ==> r[i] in r;
      [p[0]] + r
  }

  function Sorted(p: seq<int>): (r: seq<int>)
    ensures Ascending(r)
    ensures forall x :: x in r <==> x in p
  {
    if p == [] then [] else assert p == [p[0]] + p[1..]; Insert(p[0], Sorted(p[1..]))
  }

  // ------------------------------------------------------------------ transform

  /** No segment begins or ends strictly inside `lo..hi`. */
  ghost predicate Unbroken(s: seq<Segment>, lo: int, hi: int)
  {
    forall k :: 0 <= k < |s| ==> (s[k].a <= lo || hi < s[k].a) && (s[k].b < lo || hi <= s[k].b)
  }

  lemma {:induction false} CountConstant(s: seq<Segment>, lo: int, hi: int, x: int)
    requires Unbroken(s, lo, hi) && lo <= x <= hi
    ensures Count(s, x) == Count(s, lo)
  {
    if s != [] {
      assert Unbroken(s[1..], lo, hi) by {
        forall k | 0 <= k < |s[1..]|
          ensures (s[1..][k].a <= lo || hi < s[1..][k].a) && (s[1..][k].b < lo || hi <= s[1..][k].b)
        {
          assert s[1..][k] == s[k + 1];
        }
      }
      CountConstant(s[1..], lo, hi, x);
    }
  }

  /** `out` is the finished part of a transformation, below byte `upto`. */
  ghost predicate Partial(s: seq<Segment>, a: int, b: int, delta: int, out: seq<Segment>, upto: int)
  {
    && Canonical(out)
    && (forall i :: 0 <= i < |out| ==> out[i].b < upto)
    && (forall x :: x < upto ==> Count(out, x) == Shifted(Count(s, x), x, a, b, delta))
  }

  lemma CanonicalAppend(s: seq<Segment>, g: Segment)
    requires Canonical(s) && g.a <= g.b && 0 < g.c
    requires s != [] ==> var e := s[|s| - 1]; e.b < g.a && (e.c == g.c ==> e.b + 1 < g.a)
    ensures Canonical(s + [g])
    ensures forall x :: Count(s + [g], x) == if g.a <= x <= g.b then g.c else Count(s, x)
    ensures forall i :: 0 <= i < |s + [g]| ==> (s + [g])[i].b <= g.b
  {
    forall i | 0 <= i < |s|
      ensures s[i].b < g.a && (s[i].c == g.c ==> s[i].b + 1 < g.a)
    {
      assert s[i].a <= s[i].b;
      if i < |s| - 1 { assert s[i].b < s[|s| - 1].a <= s[|s| - 1].b; }
    }
    forall x ensures Count(s + [g], x) == if g.a <= x <= g.b then g.c else Count(s, x) {
      CountAppend(s, g, x);
    }
  }

  lemma CanonicalPrefix(s: seq<Segment>, x: int)
    requires Canonical(s) && s != []
    ensures Canonical(s[..|s| - 1])
    ensures Count(s, x) == if s[|s| - 1].a <= x <= s[|s| - 1].b then s[|s| - 1].c else Count(s[..|s| - 1], x)
  {
    assert s == s[..|s| - 1] + [s[|s| - 1]];
    CountAppend(s[..|s| - 1], s[|s| - 1], x);
  }

  /** Adds bytes `lo..hi` with count `c` behind `out`, extending its last segment when that one
      ends right before `lo` with the same count. */
  method Extend(out: seq<Segment>, lo: int, hi: int, c: int) returns (r: seq<Segment>)
    requires Canonical(out) && lo <= hi && 0 < c
    requires out != [] ==> out[|out| - 1].b < lo
    ensures Canonical(r) && (forall i :: 0 <= i < |r| ==> r[i].b <= hi)
    ensures forall x :: Count(r, x) == if lo <= x <= hi then c else Count(out, x)
  {
    var n := |out|;
    if n > 0 && out[n - 1].b + 1 == lo && out[n - 1].c == c {
      r := out[n - 1 := out[n - 1].(b := hi)];
      ghost var front := out[..n - 1];
      assert r == front + [Segment(out[n - 1].a, hi, c)];
      CanonicalPrefix(out, lo);
      CanonicalAppend(front, Segment(out[n - 1].a, hi, c));
      forall x ensures Count(r, x) == if lo <= x <= hi then c else Count(out, x) {
        CanonicalPrefix(out, x);
      }
    } else {
      r := out + [Segment(lo, hi, c)];
      CanonicalAppend(out, Segment(lo, hi, c));
    }
  }

  method Lookup(s: seq<Segment>, x: int) returns (c: int)
    ensures c == Count(s, x)
  {
    c := 0;
    var i := 0;
    while i < |s|
      invariant 0 <= i <= |s| && c == 0
      invariant Count(s, x) == Count(s[i..], x)
    {
      if s[i].a <= x <= s[i].b {
        c := s[i].c;
        return;
      }
      assert s[i..][1..] == s[i + 1..];
      i := i + 1;
    }
  }

  /** One piece between two neighbouring end points has been handled. */
  lemma PieceDone(s: seq<Segment>, a: int, b: int, delta: int, points: seq<int>, i: int,
                  before: seq<Segment>, out: seq<Segment>)
    requires Bounds(s, a, b, points) && 0 <= i && i + 1 < |points| && points[i] < points[i + 1]
    requires Partial(s, a, b, delta, before, points[i])
    requires var lo, hi := points[i], points[i + 1] - 1;
      var c := Count(s, lo) + if a <= lo <= b then delta else 0;
      if c > 0 then
        && Canonical(out) && (forall k :: 0 <= k < |out| ==> out[k].b <= hi)
        && (forall x :: Count(out, x) == if lo <= x <= hi then c else Count(before, x))
      else out == before
    ensures Partial(s, a, b, delta, out, points[i + 1])
  {
    var lo, hi := points[i], points[i + 1] - 1;
    Gap(s, a, b, points, i);
    forall x | x <= hi ensures Count(out, x) == Shifted(Count(s, x), x, a, b, delta) {
      if lo <= x {
        CountConstant(s, lo, hi, x);
        CountOutside(before, x);
      }
    }
  }

  method EndPoints(s: seq<Segment>, a: int, b: int) returns (points: seq<int>)
    ensures Bounds(s, a, b, points)
  {
    points := [a, b + 1];
    var k := 0;
    while k < |s|
      invariant 0 <= k <= |s|
      invariant a in points && b + 1 in points
      invariant forall j :: 0 <= j < k ==> s[j].a in points && s[j].b + 1 in points
    {
      points := points + [s[k].a, s[k].b + 1];
      k := k + 1;
    }
    points := Sorted(points);
  }

  /** Adds `delta` to the counts of bytes `a..b`, dropping what falls to zero or below.  The result
      is the one canonical list with those counts. */
  method Transform(s: seq<Segment>, a: int, b: int, delta: int) returns (out: seq<Segment>)
    requires Canonical(s)
    ensures Canonical(out)
    ensures forall x :: Count(out, x) == Shifted(Count(s, x), x, a, b, delta)
  {
    if a > b {
      forall x ensures 0 <= Count(s, x) { CountNonNegative(s, x); }
      return s;
    }
    var points := EndPoints(s, a, b);
    out := [];
    var i := 0;
    NothingBelow(s, a, b, delta, points);
    while i + 1 < |points|
      invariant 0 <= i < |points|
      invariant Bounds(s, a, b, points)
      invariant Partial(s, a, b, delta, out, points[i])
    {
      var lo, hi := points[i], points[i + 1] - 1;
      if lo <= hi {
        var c := Lookup(s, lo);
        if a <= lo <= b { c := c + delta; }
        ghost var before := out;
        if c > 0 { out := Extend(out, lo, hi, c); }
        PieceDone(s, a, b, delta, points, i, before, out);
      }
      i := i + 1;
    }
    AllDone(s, a, b, delta, points, out);
  }

  ghost predicate Bounds(s: seq<Segment>, a: int, b: int, points: seq<int>)
  {
    && Ascending(points) && a in points && b + 1 in points
    && forall j :: 0 <= j < |s| ==> s[j].a in points && s[j].b + 1 in points
  }

  lemma NothingBelow(s: seq<Segment>, a: int, b: int, delta: int, points: seq<int>)
    requires Bounds(s, a, b, points)
    ensures Partial(s, a, b, delta, [], points[0])
  {
    forall x | x < points[0] ensures Shifted(Count(s, x), x, a, b, delta) == 0 {
      CountOutside(s, x);
    }
  }

  lemma AllDone(s: seq<Segment>, a: int, b: int, delta: int, points: seq<int>, out: seq<Segment>)
    requires Bounds(s, a, b, points)
    requires Partial(s, a, b, delta, out, points[|points| - 1])
    ensures forall x :: Count(out, x) == Shifted(Count(s, x), x, a, b, delta)
  {
    forall x | points[|points| - 1] <= x ensures Count(out, x) == Shifted(Count(s, x), x, a, b, delta) {
      forall j | 0 <= j < |s| ensures !(s[j].a <= x <= s[j].b) {
        assert s[j].b + 1 in points;
      }
      CountOutside(s, x);
      CountOutside(out, x);
    }
  }

  lemma Gap(s: seq<Segment>, a: int, b: int, points: seq<int>, i: int)
    requires Bounds(s, a, b, points) && 0 <= i && i + 1 < |points| && points[i] < points[i + 1]
    ensures Unbroken(s, points[i], points[i + 1] - 1)
    ensures (a <= points[i] || points[i + 1] - 1 < a) && (b < points[i] || points[i + 1] - 1 <= b)
  {
    forall v | v in points ensures v <= points[i] || points[i + 1] <= v {
      var j :| 0 <= j < |points| && points[j] == v;
    }
    forall k | 0 <= k < |s|
      ensures (s[k].a <= points[i] || points[i + 1] - 1 < s[k].a)
      ensures (s[k].b < points[i] || points[i + 1] - 1 <= s[k].b)
    {
      assert s[k].a in points && s[k].b + 1 in points;
    }
  }
}
