/** Fixed-bucket histograms of a column, when they may be published, and what a published column tells. */
module Histogram {
  import Rates

  datatype Option<T> = None | Some(value: T)

  /** The column's values so far: nothing for a null. */
  datatype Value = Null | Number(x: real)

  /** A length belongs above a bound that it exceeds; a number above a boundary that it reaches. */
  predicate Above(bound: real, x: real, lengths: bool)
  {
    if lengths then x > bound else x >= bound
  }

  /** Bucket `i` lies above the bounds before it and not above the next. */
  predicate Belongs(bounds: seq<real>, lengths: bool, v: Value, i: int)
  {
    && v.Number? && 0 <= i <= |bounds|
    && (forall k :: 0 <= k < i ==> Above(bounds[k], v.x, lengths))
    && (i < |bounds| ==> !Above(bounds[i], v.x, lengths))
  }

  function Count(values: seq<Value>, bounds: seq<real>, lengths: bool, i: int): nat
  {
    if values == [] then 0
    else
      var n := |values| - 1;
      Count(values[..n], bounds, lengths, i) + if Belongs(bounds, lengths, values[n], i) then 1 else 0
  }

  function Nulls(values: seq<Value>): (n: nat)
    ensures n <= |values|
  {
    if values == [] then 0 else Nulls(values[..|values| - 1]) + if values[|values| - 1].Null? then 1 else 0
  }

  function Sum(counts: seq<int>): int
  {
    if counts == [] then 0 else Sum(counts[..|counts| - 1]) + counts[|counts| - 1]
  }

  lemma {:induction false} SumUpdate(counts: seq<int>, i: nat, c: int)
    requires i < |counts|
    ensures Sum(counts[i := c]) == Sum(counts) - counts[i] + c
  {
    var n := |counts| - 1;
    if i < n {
      assert counts[i := c][..n] == counts[..n][i := c];
      SumUpdate(counts[..n], i, c);
    } else {
      assert counts[i := c][..n] == counts[..n];
    }
  }

  // ------------------------------------------------------------------ a published column

  /** The rows and, where they are not suppressed, the rate of nulls and the histogram. */
  datatype Column = Column(rows: nat, nullRate: Option<nat>, histogram: Option<seq<int>>)

  function Buckets(values: seq<Value>, bounds: seq<real>, lengths: bool): (r: seq<int>)
    ensures |r| == |bounds| + 1 && forall i :: 0 <= i < |r| ==> r[i] == Count(values, bounds, lengths, i)
  {
    seq(|bounds| + 1, i requires 0 <= i <= |bounds| => Count(values, bounds, lengths, i))
  }

  /** Some bucket has one to nine values. */
  predicate Low(counts: seq<int>)
  {
    exists i :: 0 <= i < |counts| && 0 < counts[i] < 10
  }

  ghost function ColumnOf(values: seq<Value>, bounds: seq<real>, lengths: bool): Column
  {
    var rows, nulls, counts := |values|, Nulls(values), Buckets(values, bounds, lengths);
    Column(rows, if rows >= 10 && !Rates.TellsSmall(nulls, rows) then Some(Rates.RateUnits(nulls, rows)) else None,
           if rows >= 10 && !Low(counts) then Some(counts) else None)
  }

  /** The rate is one that one to nine nulls, or one to nine values, have. */
  ghost predicate RateTells(c: Column)
  {
    c.rows > 0 && c.nullRate.Some? && exists d: nat :: d <= c.rows && Rates.Small(d, c.rows) && HasRate(d, c)
  }

  ghost predicate HasRate(d: nat, c: Column)
    requires c.rows > 0 && c.nullRate.Some?
  {
    Rates.RateUnits(d, c.rows) == c.nullRate.value
  }

  /** The histogram sums to one to nine fewer than there are rows: that many nulls are told. */
  predicate RestTells(c: Column)
  {
    c.histogram.Some? && 1 <= c.rows - Sum(c.histogram.value) <= 9
  }

  /** The place of a value among the buckets. */
  function Place(bounds: seq<real>, x: real, lengths: bool, from: nat): (i: nat)
    requires from <= |bounds| && forall k :: 0 <= k < from ==> Above(bounds[k], x, lengths)
    ensures Belongs(bounds, lengths, Number(x), i)
    decreases |bounds| - from
  {
    if from < |bounds| && Above(bounds[from], x, lengths) then Place(bounds, x, lengths, from + 1) else from
  }

  /** Every value has its bucket, and only one. */
  lemma {:induction false} BucketsSum(values: seq<Value>, bounds: seq<real>, lengths: bool)
    ensures Sum(Buckets(values, bounds, lengths)) + Nulls(values) == |values|
  {
    if values == [] {
      Zeros(Buckets(values, bounds, lengths));
    } else {
      var front, v := values[..|values| - 1], values[|values| - 1];
      BucketsSum(front, bounds, lengths);
      var before := Buckets(front, bounds, lengths);
      if v.Null? {
        assert Buckets(values, bounds, lengths) == before;
      } else {
        var i := Place(bounds, v.x, lengths, 0);
        SumUpdate(before, i, before[i] + 1);
        assert Buckets(values, bounds, lengths) == before[i := before[i] + 1];
      }
    }
  }

  /** Buckets of none or of ten and more hold none together, or ten and more. */
  lemma {:induction false} SumNotLow(counts: seq<int>)
    requires !Low(counts) && forall i :: 0 <= i < |counts| ==> counts[i] >= 0
    ensures Sum(counts) == 0 || Sum(counts) >= 10
  {
    if counts != [] {
      var front, n := counts[..|counts| - 1], counts[|counts| - 1];
      assert !Low(front) && !(0 < n < 10);
      SumNotLow(front);
    }
  }

  /** What a published column tells of a small number of nulls or of values. The rate tells none. The histogram
      tells one to nine nulls exactly when there are ten rows, no bucket of one to nine and that many nulls; it
      never tells one to nine values. */
  lemma ColumnTells(values: seq<Value>, bounds: seq<real>, lengths: bool)
    ensures var c, nulls := ColumnOf(values, bounds, lengths), Nulls(values);
      && !RateTells(c)
      && (RestTells(c) <==> |values| >= 10 && !Low(Buckets(values, bounds, lengths)) && 1 <= nulls <= 9)
      && (c.histogram.Some? ==> |values| - nulls == Sum(c.histogram.value) && !(1 <= |values| - nulls <= 9))
  {
    var c, counts := ColumnOf(values, bounds, lengths), Buckets(values, bounds, lengths);
    BucketsSum(values, bounds, lengths);
    if !Low(counts) { SumNotLow(counts); }
  }

  function Repeat(v: Value, n: nat): (r: seq<Value>)
    ensures |r| == n && forall i :: 0 <= i < n ==> r[i] == v
  {
    seq(n, i => v)
  }

  lemma {:induction false} CountRepeat(values: seq<Value>, v: Value, n: nat, bounds: seq<real>, lengths: bool, i: int)
    ensures Count(values + Repeat(v, n), bounds, lengths, i)
      == Count(values, bounds, lengths, i) + if Belongs(bounds, lengths, v, i) then n else 0
    ensures Nulls(values + Repeat(v, n)) == Nulls(values) + if v.Null? then n else 0
  {
    if n == 0 {
      assert values + Repeat(v, n) == values;
    } else {
      CountRepeat(values, v, n - 1, bounds, lengths, i);
      assert (values + Repeat(v, n))[..|values| + n - 1] == values + Repeat(v, n - 1);
    }
  }

  /** Ten values, ten greater ones and five nulls: the rate of nulls is suppressed, the histogram tells the five. */
  lemma FiveNullsTold(values: seq<Value>)
    requires values == Repeat(Number(1.0), 10) + Repeat(Number(3.0), 10) + Repeat(Null, 5)
    ensures ColumnOf(values, [2.0], false) == Column(25, None, Some([10, 10])) && RestTells(ColumnOf(values, [2.0], false))
  {
    FiveNulls(values);
    assert Buckets(values, [2.0], false) == [10, 10];
    assert Rates.Small(5, 25);
    ColumnTells(values, [2.0], false);
  }

  lemma FiveNulls(values: seq<Value>)
    requires values == Repeat(Number(1.0), 10) + Repeat(Number(3.0), 10) + Repeat(Null, 5)
    ensures Nulls(values) == 5 && Count(values, [2.0], false, 0) == 10 && Count(values, [2.0], false, 1) == 10
  {
    var one, two := Repeat(Number(1.0), 10), Repeat(Number(3.0), 10);
    assert [] + one == one;
    assert Belongs([2.0], false, Number(1.0), 0) && Belongs([2.0], false, Number(3.0), 1);
    assert !Belongs([2.0], false, Number(1.0), 1) && !Belongs([2.0], false, Number(3.0), 0);
    for i := 0 to 2
      invariant i > 0 ==> Nulls(values) == 5 && Count(values, [2.0], false, 0) == 10
      invariant i > 1 ==> Count(values, [2.0], false, 1) == 10
    {
      CountRepeat([], Number(1.0), 10, [2.0], false, i);
      CountRepeat(one, Number(3.0), 10, [2.0], false, i);
      CountRepeat(one + two, Null, 5, [2.0], false, i);
    }
  }

  // ------------------------------------------------------------------ counting a column

  class Aggregate {
    const bounds: seq<real>
    const lengths: bool
    var nulls: int
    const counts: array<int>
    ghost var values: seq<Value>

    ghost predicate Valid()
      reads this, counts
    {
      && counts.Length == |bounds| + 1 && nulls == Nulls(values)
      && (forall i :: 0 <= i <= |bounds| ==> counts[i] == Count(values, bounds, lengths, i))
      && Sum(counts[..]) + nulls == |values|
    }

    constructor (bounds: seq<real>, lengths: bool)
      ensures Valid() && values == [] && this.bounds == bounds && this.lengths == lengths && fresh(counts)
    {
      this.bounds, this.lengths, nulls, values := bounds, lengths, 0, [];
      counts := new int[|bounds| + 1](i => 0);
      new;
      Zeros(counts[..]);
    }

    /** Counts one value: in the bucket where it belongs, or as a null. */
    method Add(v: Value)
      requires Valid()
      modifies this, counts
      ensures Valid() && values == old(values) + [v]
    {
      ghost var was := values;
      values := values + [v];
      assert values[..|was|] == was;
      if v.Null? {
        nulls := nulls + 1;
        return;
      }
      var i := 0;
      while i < |bounds| && Above(bounds[i], v.x, lengths)
        invariant i <= |bounds| && forall k :: 0 <= k < i ==> Above(bounds[k], v.x, lengths)
      {
        i := i + 1;
      }
      ghost var before := counts[..];
      SumUpdate(before, i, before[i] + 1);
      counts[i] := counts[i] + 1;
      assert counts[..] == before[i := before[i] + 1];
    }

    /** The column as it is published, beside the count of all rows. */
    method Finish(rows: nat) returns (c: Column)
      requires Valid() && rows == |values|
      ensures c == ColumnOf(values, bounds, lengths)
    {
      var rated, rate := Rates.NullRate(nulls, rows);
      var published := Publish(rows);
      Counted();
      c := Column(rows, if rated then Some(rate) else None, if published then Some(counts[..]) else None);
    }

    lemma Counted()
      requires Valid()
      ensures counts[..] == Buckets(values, bounds, lengths)
    {}

    /** The histogram may be published when there are ten rows and no bucket holds one to nine values. */
    method Publish(rows: int) returns (published: bool)
      requires Valid() && rows == |values|
      ensures published <==> rows >= 10 && !Low(Buckets(values, bounds, lengths))
    {
      if rows < 10 { return false; }
      Counted();
      for i := 0 to counts.Length
        invariant forall k :: 0 <= k < i ==> !(0 < counts[k] < 10)
      {
        if 0 < counts[i] < 10 {
          assert 0 < counts[..][i] < 10;
          return false;
        }
      }
      published := true;
    }
  }

  lemma Zeros(counts: seq<int>)
    requires forall i :: 0 <= i < |counts| ==> counts[i] == 0
    ensures Sum(counts) == 0
  {}
}
