/** Null rates in parts per million, rounded half to even, and which of them may be published. */
module Rates {
  const MILLION := 1_000_000

  /** `x / n`, rounded to the nearest integer, halves to the even one. */
  function RoundedDiv(x: nat, n: nat): (v: nat)
    requires n > 0
  {
    var q, r := x / n, 2 * (x % n);
    if r > n || (r == n && q % 2 != 0) then q + 1 else q
  }

  function RateUnits(c: nat, n: nat): (v: nat)
    requires n > 0
  {
    RoundedDiv(c * MILLION, n)
  }

  /** `v` is nearest to `x / n`, and even if another integer is as near. */
  predicate IsNearest(x: int, n: int, v: int)
  {
    && -n <= 2 * (x - v * n) <= n
    && (2 * (x - v * n) == n || 2 * (x - v * n) == -n ==> v % 2 == 0)
  }

  lemma RoundedIsNearest(x: nat, n: nat)
    requires n > 0
    ensures IsNearest(x, n, RoundedDiv(x, n))
  {
    var q := x / n;
    assert (q + 1) * n == q * n + n;
  }

  /** There is only one such integer. */
  lemma NearestIsUnique(x: int, n: int, v: int, w: int)
    requires n > 0 && IsNearest(x, n, v) && IsNearest(x, n, w)
    ensures v == w
  {
    if v < w { NearestNotLess(x, n, v, w); }
    if w < v { NearestNotLess(x, n, w, v); }
  }

  lemma NearestNotLess(x: int, n: int, v: int, w: int)
    requires n > 0 && v < w
    ensures !(IsNearest(x, n, v) && IsNearest(x, n, w))
  {
    Multiples(n, v, w);
    OneInReach(x, n, v, w, v * n, w * n);
  }

  lemma Multiples(n: int, v: int, w: int)
    requires n > 0 && v < w
    ensures w * n == v * n + n || w * n >= v * n + 2 * n
    ensures w * n == v * n + n ==> w == v + 1
  {
    if w == v + 1 {
      assert w * n == v * n + n;
    } else {
      assert (w - v - 2) * n >= 0;
      assert w * n == v * n + 2 * n + (w - v - 2) * n;
    }
  }

  lemma OneInReach(x: int, n: int, v: int, w: int, p: int, q: int)
    requires n > 0 && ((q == p + n && w == v + 1) || q >= p + 2 * n)
    ensures !(-n <= 2 * (x - p) <= n && (2 * (x - p) == n || 2 * (x - p) == -n ==> v % 2 == 0)
              && -n <= 2 * (x - q) <= n && (2 * (x - q) == n || 2 * (x - q) == -n ==> w % 2 == 0))
  {}

  lemma QuotientOrder(x: nat, y: nat, n: nat)
    requires n > 0 && x <= y
    ensures x / n <= y / n && (x / n == y / n ==> x % n <= y % n)
  {
    var p, q := x / n, y / n;
    assert p >= q + 1 ==> p * n >= (q + 1) * n;
    assert (q + 1) * n == q * n + n;
  }

  lemma RoundedMonotone(x: nat, y: nat, n: nat)
    requires n > 0 && x <= y
    ensures RoundedDiv(x, n) <= RoundedDiv(y, n)
  {
    QuotientOrder(x, y, n);
  }

  /** More nulls never give a smaller rate. */
  lemma RateMonotone(c: nat, d: nat, n: nat)
    requires n > 0 && c <= d
    ensures RateUnits(c, n) <= RateUnits(d, n)
  {
    RoundedMonotone(c * MILLION, d * MILLION, n);
  }

  lemma RateEnds(n: nat)
    requires n > 0
    ensures RateUnits(0, n) == 0 && RateUnits(n, n) == MILLION
  {
    RoundedIsNearest(n * MILLION, n);
    NearestIsUnique(n * MILLION, n, RateUnits(n, n), MILLION);
  }

  /** The first count below `n` whose rate reaches the target, or `n`. */
  method First(target: nat, n: nat) returns (lo: nat)
    requires n > 0
    ensures lo <= n && (forall c: nat :: c < lo ==> RateUnits(c, n) < target)
    ensures forall c: nat :: lo <= c < n ==> RateUnits(c, n) >= target
  {
    lo := 0;
    var hi := n;
    while lo < hi
      invariant lo <= hi <= n
      invariant forall c: nat :: c < lo ==> RateUnits(c, n) < target
      invariant forall c: nat :: hi <= c < n ==> RateUnits(c, n) >= target
    {
      var m := lo + (hi - lo) / 2;
      if RateUnits(m, n) < target {
        forall c: nat | c <= m ensures RateUnits(c, n) < target { RateMonotone(c, m, n); }
        lo := m + 1;
      } else {
        forall c: nat | m <= c ensures RateUnits(c, n) >= target { RateMonotone(m, c, n); }
        hi := m;
      }
    }
  }

  /** The counts that have the same rate as `c`. */
  method Preimage(c: nat, n: nat) returns (left: int, right: int)
    requires c <= n && n > 0
    ensures 0 <= left <= right <= n
    ensures forall d: nat :: d <= n ==> (RateUnits(d, n) == RateUnits(c, n) <==> left <= d <= right)
  {
    var v := RateUnits(c, n);
    RateEnds(n);
    RateMonotone(c, n, n);
    left := First(v, n);
    var after := First(v + 1, n);
    right := after - 1;
    if v == MILLION { right := n; }
    forall d: nat | d <= n ensures RateUnits(d, n) == v <==> left <= d <= right {
      RateMonotone(d, n, n);
    }
  }

  /** A count that would be told from its rate: one to nine nulls, or one to nine values. */
  predicate Small(d: int, n: int)
  {
    1 <= d <= 9 || n - 9 <= d <= n - 1
  }

  ghost predicate TellsSmall(c: nat, n: nat)
    requires n > 0
  {
    exists d: nat :: d <= n && RateUnits(d, n) == RateUnits(c, n) && Small(d, n)
  }

  method AmbiguousRate(c: nat, n: nat) returns (ambiguous: bool)
    requires c <= n && n > 0
    ensures ambiguous <==> TellsSmall(c, n)
  {
    var left, right := Preimage(c, n);
    var a, b := if left > 1 then left else 1, if right < 9 then right else 9;
    var x, y := if left > n - 9 then left else n - 9, if right < n - 1 then right else n - 1;
    ambiguous := a <= b || x <= y;
    if a <= b { assert Small(a, n) && RateUnits(a, n) == RateUnits(c, n); }
    if x <= y { assert Small(x, n) && RateUnits(x, n) == RateUnits(c, n); }
  }

  /** The null rate as it is published, or nothing. */
  method NullRate(nulls: nat, rows: nat) returns (published: bool, rate: nat)
    requires nulls <= rows
    ensures published <==> rows >= 10 && !TellsSmall(nulls, rows)
    ensures published ==> rate == RateUnits(nulls, rows)
    ensures published ==> forall d: nat :: d <= rows && RateUnits(d, rows) == rate ==> d == 0 || d == rows || 10 <= d <= rows - 10
  {
    published, rate := false, 0;
    if rows >= 10 {
      if 0 < nulls < 10 || 0 < rows - nulls < 10 {
        assert Small(nulls, rows);
        return;
      }
      var ambiguous := AmbiguousRate(nulls, rows);
      if !ambiguous { published, rate := true, RateUnits(nulls, rows); }
    }
  }

  /** Below a million rows, a rate tells its count exactly. */
  lemma RateTellsCount(c: nat, d: nat, n: nat)
    requires 0 < n < MILLION && RateUnits(c, n) == RateUnits(d, n)
    ensures c == d
  {
    RoundedIsNearest(c * MILLION, n);
    RoundedIsNearest(d * MILLION, n);
  }

  /** The rate of `c` lies between those of `lo` and `hi`. */
  predicate RatedBetween(lo: nat, c: nat, hi: nat, n: nat)
    requires n > 0
  {
    RateUnits(lo, n) <= RateUnits(c, n) <= RateUnits(hi, n)
  }

  lemma SharedExactly(lo: nat, c: nat, hi: nat, n: nat)
    requires n > 0 && lo <= hi
    ensures RatedBetween(lo, c, hi, n) <==> exists d: nat :: lo <= d <= hi && RateUnits(d, n) == RateUnits(c, n)
  {
    if d: nat :| lo <= d <= hi && RateUnits(d, n) == RateUnits(c, n) {
      RateMonotone(lo, d, n);
      RateMonotone(d, hi, n);
    }
    if RatedBetween(lo, c, hi, n) {
      if c < lo { RateMonotone(c, lo, n); }
      if c > hi { RateMonotone(hi, c, n); }
      var d: nat := if c < lo then lo else if c > hi then hi else c;
      assert RateUnits(d, n) == RateUnits(c, n);
    }
  }

  /** A rate tells a small count exactly when it lies between those of one and nine, or of nine and one short of
      all; below a million exactly when its own count is small. */
  lemma TellsSmallExactly(c: nat, n: nat)
    requires n >= 10
    ensures TellsSmall(c, n) <==> RatedBetween(1, c, 9, n) || RatedBetween(n - 9, c, n - 1, n)
    ensures n < MILLION ==> (TellsSmall(c, n) <==> Small(c, n))
  {
    SharedExactly(1, c, 9, n);
    SharedExactly(n - 9, c, n - 1, n);
    if n < MILLION {
      if d: nat :| d <= n && RateUnits(d, n) == RateUnits(c, n) && Small(d, n) { RateTellsCount(c, d, n); }
    }
  }
}
