/** What the ledger reads off its segment lists: coverage, the resume offset, byte totals, and the
    number of separate intervals. */
module Coverage {
  import opened Segments

  // ------------------------------------------------------------------ covered

  /** One segment reaches from `a` to `b`: the scan of the source. */
  method Covered(s: seq<Segment>, a: int, b: int) returns (r: bool)
    ensures r == exists i :: 0 <= i < |s| && s[i].a <= a && b <= s[i].b
  {
    var i := 0;
    while i < |s|
      invariant 0 <= i <= |s|
      invariant forall k :: 0 <= k < i ==> !(s[k].a <= a && b <= s[k].b)
    {
      if s[i].a <= a && b <= s[i].b { return true; }
      i := i + 1;
    }
    r := false;
  }

  /** Every byte of `a..b` is held. */
  ghost predicate Holds(s: seq<Segment>, a: int, b: int)
  {
    forall x :: a <= x <= b ==> 0 < Count(s, x)
  }

  /** Right behind a segment of a transmitted list lies a byte that is not held. */
  lemma GapAfter(s: seq<Segment>, i: int)
    requires Unit(s) && 0 <= i < |s|
    ensures Count(s, s[i].b + 1) == 0
  {
    if Count(s, s[i].b + 1) != 0 { var j := CountFind(s, s[i].b + 1); }
  }

  /** Right before a segment of a transmitted list lies a byte that is not held. */
  lemma GapBefore(s: seq<Segment>, i: int)
    requires Unit(s) && 0 <= i < |s|
    ensures Count(s, s[i].a - 1) == 0
  {
    if Count(s, s[i].a - 1) != 0 { var j := CountFind(s, s[i].a - 1); }
  }

  /** On a transmitted list, one segment reaches across exactly when every byte is held. */
  lemma CoveredMeansHeld(s: seq<Segment>, a: int, b: int)
    requires Unit(s) && a <= b
    ensures Holds(s, a, b) <==> exists i :: 0 <= i < |s| && s[i].a <= a && b <= s[i].b
  {
    if Holds(s, a, b) {
      var i := CountFind(s, a);
      GapAfter(s, i);
    } else if i :| 0 <= i < |s| && s[i].a <= a && b <= s[i].b {
      forall x | a <= x <= b ensures 0 < Count(s, x) { CountAt(s, i, x); }
    }
  }

  // ------------------------------------------------------------------ first untransmitted byte

  /** The least byte not yet transmitted, or the size when there is none. */
  method FirstUntransmitted(s: seq<Segment>, size: int) returns (r: int)
    requires Canonical(s) && 0 <= size
    ensures 0 <= r <= size && Holds(s, 0, r - 1)
    ensures r < size ==> Count(s, r) == 0
  {
    var next, i := 0, 0;
    while i < |s|
      invariant 0 <= i <= |s| && 0 <= next && Holds(s, 0, next - 1)
      invariant forall k :: 0 <= k < i ==> s[k].b < next
    {
      if s[i].a > next {
        CountOutside(s, next);
        break;
      }
      if s[i].b >= next {
        ghost var was := next;
        next := s[i].b + 1;
        forall x | was <= x < next ensures 0 < Count(s, x) { CountAt(s, i, x); }
      }
      i := i + 1;
    }
    if i == |s| { CountOutside(s, next); }
    r := Min(next, size);
  }

  // ------------------------------------------------------------------ byte totals

  function Bytes(s: seq<Segment>): int
  {
    if s == [] then 0 else Bytes(s[..|s| - 1]) + s[|s| - 1].b - s[|s| - 1].a + 1
  }

  method CountBytes(s: seq<Segment>) returns (n: int)
    ensures n == Bytes(s)
  {
    n := 0;
    var i := 0;
    while i < |s|
      invariant 0 <= i <= |s| && n == Bytes(s[..i])
    {
      assert s[..i + 1][..i] == s[..i];
      n := n + s[i].b - s[i].a + 1;
      i := i + 1;
    }
    assert s[..i] == s;
  }

  ghost predicate Within(s: seq<Segment>, lo: int, hi: int)
  {
    forall i :: 0 <= i < |s| ==> lo <= s[i].a && s[i].b < hi
  }

  ghost function Held(s: seq<Segment>, lo: int, hi: int): set<int>
  {
    set x | lo <= x < hi && 0 < Count(s, x)
  }

  ghost function Run(a: int, b: int): (r: set<int>)
    ensures forall x :: x in r <==> a <= x <= b
    ensures |r| == if a <= b then b - a + 1 else 0
    decreases b - a
  {
    if a <= b then Run(a, b - 1) + {b} else {}
  }

  /** The sum of segment lengths is the number of bytes held. */
  lemma {:induction false} BytesAreHeld(s: seq<Segment>, lo: int, hi: int)
    requires Canonical(s) && Within(s, lo, hi)
    ensures Bytes(s) == |Held(s, lo, hi)|
  {
    if s == [] {
      assert Held(s, lo, hi) == {};
    } else {
      var front := s[..|s| - 1];
      CanonicalPrefix(s, lo);
      BytesAreHeld(front, lo, hi);
      HeldGrows(s, lo, hi);
    }
  }

  /** The last segment holds its own bytes besides those before it. */
  lemma HeldGrows(s: seq<Segment>, lo: int, hi: int)
    requires Canonical(s) && Within(s, lo, hi) && s != []
    ensures var g := s[|s| - 1]; |Held(s, lo, hi)| == |Held(s[..|s| - 1], lo, hi)| + g.b - g.a + 1
  {
    var front, g := s[..|s| - 1], s[|s| - 1];
    var before, added := Held(front, lo, hi), Run(g.a, g.b);
    forall x ensures x in Held(s, lo, hi) <==> x in before + added { CanonicalPrefix(s, x); }
    forall x | x in added ensures x !in before { CountOutside(front, x); }
    assert Held(s, lo, hi) == before + added && before !! added;
  }

  lemma WithinFromCounts(s: seq<Segment>, lo: int, hi: int)
    requires Ordered(s) && forall x :: 0 < Count(s, x) ==> lo <= x < hi
    ensures Within(s, lo, hi)
  {
    forall i | 0 <= i < |s| ensures lo <= s[i].a && s[i].b < hi {
      CountAt(s, i, s[i].a);
      CountAt(s, i, s[i].b);
    }
  }

  /** Held bytes inside a file of `size` bytes are all of them exactly when they number `size`. */
  lemma AllBytesHeld(s: seq<Segment>, size: int)
    requires Canonical(s) && Within(s, 0, size) && 0 <= size
    ensures Bytes(s) == size <==> Holds(s, 0, size - 1)
    ensures Bytes(s) <= size
  {
    BytesAreHeld(s, 0, size);
    var held, all := Held(s, 0, size), Run(0, size - 1);
    assert held <= all;
    if |held| == |all| {
      assert |all - held| == |all| - |held|;
      assert all - held == {};
      forall x | 0 <= x <= size - 1 ensures 0 < Count(s, x) {
        assert x in all;
      }
    }
    if Holds(s, 0, size - 1) { assert held == all; }
    assert |all| == |held| + |all - held| by { assert all == held + (all - held); }
  }

  // ------------------------------------------------------------------ bytes served twice, unrecorded

  /** Bytes at two serves that no transmitted segment holds. */
  ghost function Spent(ss: seq<Segment>, tr: seq<Segment>, lo: int, hi: int): set<int>
  {
    set x | lo <= x < hi && Count(ss, x) == 2 && Count(tr, x) == 0
  }

  function Overlap(g: Segment, tr: seq<Segment>): int
  {
    if tr == [] then 0
    else Overlap(g, tr[..|tr| - 1])
         + Max(0, Min(g.b, tr[|tr| - 1].b) - Max(g.a, tr[|tr| - 1].a) + 1)
  }

  ghost function Shared(g: Segment, tr: seq<Segment>): set<int>
  {
    set x | g.a <= x <= g.b && 0 < Count(tr, x)
  }

  lemma {:induction false} OverlapSize(g: Segment, tr: seq<Segment>)
    requires Canonical(tr)
    ensures Overlap(g, tr) == |Shared(g, tr)|
  {
    var common := Shared(g, tr);
    if tr == [] {
      assert common == {};
    } else {
      CanonicalPrefix(tr, 0);
      OverlapSize(g, tr[..|tr| - 1]);
      SharedGrows(g, tr);
    }
  }

  lemma SharedGrows(g: Segment, tr: seq<Segment>)
    requires Canonical(tr) && tr != []
    ensures var y := tr[|tr| - 1];
      |Shared(g, tr)| == |Shared(g, tr[..|tr| - 1])| + Max(0, Min(g.b, y.b) - Max(g.a, y.a) + 1)
  {
    var front, y := tr[..|tr| - 1], tr[|tr| - 1];
    var before, more := Shared(g, front), Run(Max(g.a, y.a), Min(g.b, y.b));
    forall x ensures x in Shared(g, tr) <==> x in before + more { CanonicalPrefix(tr, x); }
    forall x | x in more ensures x !in before { CountOutside(front, x); }
    assert Shared(g, tr) == before + more && before !! more;
  }

  /** The bytes of `x` that no transmitted segment holds. */
  method Unwritten(x: Segment, tr: seq<Segment>) returns (unwritten: int)
    ensures unwritten == x.b - x.a + 1 - Overlap(x, tr)
  {
    unwritten := x.b - x.a + 1;
    var j := 0;
    while j < |tr|
      invariant 0 <= j <= |tr| && unwritten == x.b - x.a + 1 - Overlap(x, tr[..j])
    {
      assert tr[..j + 1][..j] == tr[..j];
      unwritten := unwritten - Max(0, Min(x.b, tr[j].b) - Max(x.a, tr[j].a) + 1);
      j := j + 1;
    }
    assert tr[..j] == tr;
  }

  /** The `max_serves_reached_bytes` field of a receipt. */
  method MaxServesReached(ss: seq<Segment>, tr: seq<Segment>, ghost lo: int, ghost hi: int) returns (n: int)
    requires Canonical(ss) && Canonical(tr) && Within(ss, lo, hi)
    ensures n == |Spent(ss, tr, lo, hi)|
  {
    n := 0;
    var i := 0;
    assert Spent([], tr, lo, hi) == {};
    while i < |ss|
      invariant 0 <= i <= |ss| && n == |Spent(ss[..i], tr, lo, hi)|
    {
      var x := ss[i];
      if x.c == 2 {
        var unwritten := Unwritten(x, tr);
        n := n + unwritten;
      }
      SpentStep(ss, i, tr, lo, hi);
      i := i + 1;
    }
    assert ss[..i] == ss;
  }

  /** The bytes a segment at two serves adds to `Spent`. */
  ghost function Unrecorded(g: Segment, tr: seq<Segment>): set<int>
  {
    if g.c == 2 then Run(g.a, g.b) - Shared(g, tr) else {}
  }

  lemma UnrecordedSize(g: Segment, tr: seq<Segment>)
    requires Canonical(tr) && g.a <= g.b
    ensures |Unrecorded(g, tr)| == if g.c == 2 then g.b - g.a + 1 - Overlap(g, tr) else 0
    ensures forall x :: x in Unrecorded(g, tr) <==> g.c == 2 && g.a <= x <= g.b && Count(tr, x) == 0
  {
    OverlapSize(g, tr);
    var all, shared := Run(g.a, g.b), Shared(g, tr);
    assert all == (all - shared) + shared;
    forall x ensures 0 <= Count(tr, x) { CountNonNegative(tr, x); }
  }

  /** A segment of the list adds the bytes it has to `Spent`, which it had not from those before. */
  lemma SpentStep(ss: seq<Segment>, i: nat, tr: seq<Segment>, lo: int, hi: int)
    requires Canonical(ss) && i < |ss| && Canonical(tr) && Within(ss, lo, hi)
    ensures |Spent(ss[..i + 1], tr, lo, hi)| == |Spent(ss[..i], tr, lo, hi)|
      + if ss[i].c == 2 then ss[i].b - ss[i].a + 1 - Overlap(ss[i], tr) else 0
  {
    UnrecordedSize(ss[i], tr);
    var before, added := Spent(ss[..i], tr, lo, hi), Unrecorded(ss[i], tr);
    forall x ensures x in Spent(ss[..i + 1], tr, lo, hi) <==> x in before || x in added
      ensures !(x in before && x in added)
    {
      SpentAt(ss, i, tr, lo, hi, x);
    }
    assert Spent(ss[..i + 1], tr, lo, hi) == before + added && before !! added;
  }

  lemma SpentAt(ss: seq<Segment>, i: nat, tr: seq<Segment>, lo: int, hi: int, x: int)
    requires Canonical(ss) && i < |ss| && Canonical(tr) && Within(ss, lo, hi)
    ensures x in Spent(ss[..i + 1], tr, lo, hi)
      <==> x in Spent(ss[..i], tr, lo, hi) || (ss[i].c == 2 && ss[i].a <= x <= ss[i].b && Count(tr, x) == 0)
    ensures x in Spent(ss[..i], tr, lo, hi) ==> !(ss[i].a <= x <= ss[i].b)
  {
    var upto := ss[..i + 1];
    assert upto[..i] == ss[..i] && upto[i] == ss[i];
    LastCounts(upto, x);
  }

  /** A byte's count is that of the last segment, or of those before it where this one does not hold it. */
  lemma LastCounts(ss: seq<Segment>, x: int)
    requires Canonical(ss) && ss != []
    ensures var front, g := ss[..|ss| - 1], ss[|ss| - 1];
      Count(ss, x) == (if g.a <= x <= g.b then g.c else Count(front, x)) && (g.a <= x <= g.b ==> Count(front, x) == 0)
  {
    CanonicalPrefix(ss, x);
    if ss[|ss| - 1].a <= x <= ss[|ss| - 1].b { CountOutside(ss[..|ss| - 1], x); }
  }

  // ------------------------------------------------------------------ merging transmitted intervals

  /** Every count becomes one. */
  method Flatten(s: seq<Segment>) returns (r: seq<Segment>)
    requires Ordered(s)
    ensures Ordered(r) && forall i :: 0 <= i < |r| ==> r[i].c == 1
    ensures forall x :: Count(r, x) == if 0 < Count(s, x) then 1 else 0
  {
    r := s;
    var i := 0;
    while i < |r|
      invariant 0 <= i <= |r| == |s|
      invariant forall k :: 0 <= k < |s| ==> r[k] == if k < i then s[k].(c := 1) else s[k]
    {
      r := r[i := r[i].(c := 1)];
      i := i + 1;
    }
    forall x ensures Count(r, x) == if 0 < Count(s, x) then 1 else 0 {
      if Count(s, x) != 0 {
        var k := CountFind(s, x);
        CountAt(r, k, x);
      } else if Count(r, x) != 0 {
        var k := CountFind(r, x);
        CountAt(s, k, x);
      }
    }
  }

  /** Joins touching segments of the same count: the canonical list with the same counts. */
  method Normalize(s: seq<Segment>) returns (out: seq<Segment>)
    requires Ordered(s)
    ensures Canonical(out)
    ensures forall x :: Count(out, x) == Count(s, x)
  {
    out := [];
    var i := 0;
    while i < |s|
      invariant 0 <= i <= |s| && Canonical(out)
      invariant (out == []) == (i == 0)
      invariant out != [] ==> out[|out| - 1].b == s[i - 1].b
      invariant forall x :: Count(out, x) == Count(s[..i], x)
    {
      var x, n := s[i], |out|;
      Disjoined(s, i);
      assert s[..i + 1] == s[..i] + [x];
      if n > 0 && x.a <= out[n - 1].b + 1 && x.c == out[n - 1].c {
        Widened(out, x);
        out := out[n - 1 := out[n - 1].(b := Max(out[n - 1].b, x.b))];
      } else {
        CanonicalAppend(out, x);
        out := out + [x];
      }
      i := i + 1;
    }
    assert s[..i] == s;
  }

  lemma Disjoined(s: seq<Segment>, i: int)
    requires Ordered(s) && 0 <= i < |s|
    ensures i > 0 ==> s[i - 1].b < s[i].a
    ensures forall y :: Count(s[..i] + [s[i]], y) == if s[i].a <= y <= s[i].b then s[i].c else Count(s[..i], y)
  {
    forall y ensures Count(s[..i] + [s[i]], y) == if s[i].a <= y <= s[i].b then s[i].c else Count(s[..i], y) {
      CountAppend(s[..i], s[i], y);
    }
  }

  /** The last segment takes in one that begins right behind it with the same count. */
  lemma Widened(out: seq<Segment>, x: Segment)
    requires Canonical(out) && out != [] && x.a <= x.b
    requires var e := out[|out| - 1]; e.b + 1 == x.a && e.c == x.c
    ensures var n := |out| - 1; var after := out[n := out[n].(b := Max(out[n].b, x.b))];
      && Canonical(after) && after[n].b == x.b
      && forall y :: Count(after, y) == if x.a <= y <= x.b then x.c else Count(out, y)
  {
    var n := |out| - 1;
    var g := Segment(out[n].a, x.b, x.c);
    assert out[n := out[n].(b := Max(out[n].b, x.b))] == out[..n] + [g];
    CanonicalPrefix(out, 0);
    CanonicalAppend(out[..n], g);
    forall y ensures Count(out[..n] + [g], y) == if x.a <= y <= x.b then x.c else Count(out, y) { CanonicalPrefix(out, y); }
  }
}
