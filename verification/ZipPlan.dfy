/** Planning a ZIP file before anything of it is read: which entries are selected, where each one's bytes
    end, and which of them cannot be what they claim. */
module ZipPlan {
  import opened ZipOrder

  /** What the central directory says of an entry. */
  datatype Entry = Entry(off: int, compressed: nat, uncompressed: nat)

  datatype Extent = Extent(off: int, bound: int, valid: bool)

  datatype Plan = Plan(extents: seq<Extent>, selected: nat, planned: nat, stop: string)

  /** The smallest local header. */
  const HEADER := 30

  function Total(entries: seq<Entry>): nat
  {
    if entries == [] then 0 else Total(entries[..|entries| - 1]) + entries[|entries| - 1].uncompressed
  }

  predicate InRange(e: Entry, cdOff: int)
  {
    0 <= e.off <= cdOff - HEADER
  }

  /** `order` lists the entries in range among the first `n`, each once, by their offsets. */
  ghost predicate IsOrder(entries: seq<Entry>, cdOff: int, order: seq<int>, n: int)
  {
    && (forall j :: 0 <= j < |order| ==> 0 <= order[j] < |entries|)
    && (forall i :: i in order <==> 0 <= i < n && i < |entries| && InRange(entries[i], cdOff))
    && (forall j, k :: 0 <= j < |order| && 0 <= k < |order| ==> Apart(entries, order, j, k))
  }

  predicate Apart(entries: seq<Entry>, order: seq<int>, j: int, k: int)
    requires 0 <= j < |order| && 0 <= k < |order| && forall l :: 0 <= l < |order| ==> 0 <= order[l] < |entries|
  {
    j < k ==> order[j] != order[k] && entries[order[j]].off <= entries[order[k]].off
  }

  lemma OrderInsert(entries: seq<Entry>, cdOff: int, order: seq<int>, i: nat, at: int)
    requires IsOrder(entries, cdOff, order, i) && i < |entries| && InRange(entries[i], cdOff) && 0 <= at <= |order|
    requires at < |order| ==> entries[order[at]].off > entries[i].off
    requires at > 0 ==> entries[order[at - 1]].off <= entries[i].off
    ensures IsOrder(entries, cdOff, Inserted(order, at, i), i + 1)
  {
    var after := Inserted(order, at, i);
    forall k ensures k in after <==> k == i || k in order {}
    forall j, k | 0 <= j < |after| && 0 <= k < |after| ensures Apart(entries, after, j, k) {
      var j', k' := if j < at then j else j - 1, if k < at then k else k - 1;
      if j != at && k != at { assert Apart(entries, order, j', k'); }
      if j < k == at { assert Apart(entries, order, j, at - 1) && order[j] in order; }
      if at == j < k { assert Apart(entries, order, at, k') && order[k'] in order; }
    }
  }

  /** Where the `j`-th of them ends at the latest. */
  function BoundAt(entries: seq<Entry>, cdOff: int, order: seq<int>, j: int): int
    requires 0 <= j < |order| && forall k :: 0 <= k < |order| ==> 0 <= order[k] < |entries|
  {
    if j + 1 < |order| then entries[order[j + 1]].off else cdOff
  }

  /** Its header and the bytes it claims end by then. */
  predicate FitsAt(entries: seq<Entry>, cdOff: int, order: seq<int>, j: int)
    requires 0 <= j < |order| && forall k :: 0 <= k < |order| ==> 0 <= order[k] < |entries|
  {
    entries[order[j]].off + HEADER + entries[order[j]].compressed <= BoundAt(entries, cdOff, order, j)
  }

  /** The selected entries are the longest beginning of the list that the caps let in, and `stop` tells the
      cap that ended it. */
  predicate Selection(entries: seq<Entry>, maxEntries: nat, allowance: nat, selected: int, planned: int, stop: string)
  {
    && 0 <= selected <= |entries| && planned == Total(entries[..selected]) <= allowance && selected <= maxEntries
    && (stop == "" <==> selected == |entries|)
    && (stop == "archive_over_cap" <==> selected == maxEntries < |entries|)
    && (stop != "" && stop != "archive_over_cap" ==>
          stop == "budget_exhausted" && Total(entries[..selected + 1]) > allowance)
  }

  method Select(entries: seq<Entry>, maxEntries: nat, allowance: nat) returns (selected: nat, planned: nat, stop: string)
    ensures Selection(entries, maxEntries, allowance, selected, planned, stop)
  {
    selected, planned, stop := 0, 0, "";
    for i := 0 to |entries|
      invariant selected <= i && planned == Total(entries[..selected]) <= allowance && selected <= maxEntries
      invariant if stop == "" then selected == i
                else selected < i && (if stop == "archive_over_cap" then selected == maxEntries
                       else stop == "budget_exhausted" && selected < maxEntries && Total(entries[..selected + 1]) > allowance)
    {
      if stop == "" {
        assert entries[..i + 1][..i] == entries[..i];
        if i >= maxEntries {
          stop := "archive_over_cap";
        } else if entries[i].uncompressed > allowance - planned {
          stop := "budget_exhausted";
        } else {
          selected := selected + 1;
          planned := planned + entries[i].uncompressed;
        }
      }
    }
  }

  /** The entries in range, by offset. */
  method Order(entries: seq<Entry>, cdOff: int) returns (order: seq<int>)
    ensures IsOrder(entries, cdOff, order, |entries|)
  {
    order := [];
    for i := 0 to |entries|
      invariant IsOrder(entries, cdOff, order, i)
    {
      if InRange(entries[i], cdOff) {
        var at := |order|;
        while at > 0 && entries[order[at - 1]].off > entries[i].off
          invariant 0 <= at <= |order|
          invariant at < |order| ==> entries[order[at]].off > entries[i].off
        {
          at := at - 1;
        }
        OrderInsert(entries, cdOff, order, i, at);
        order := Inserted(order, at, i);
      }
    }
  }

  /** Looks at the `j`-th entry in order: sets its bound, and marks both sides of an overlap with the next. */
  method Judge(entries: seq<Entry>, cdOff: int, order: seq<int>, was: seq<Extent>, j: nat) returns (xs: seq<Extent>)
    requires IsOrder(entries, cdOff, order, |entries|) && j < |order| && |was| == |entries|
    requires forall i :: 0 <= i < |entries| ==> was[i].off == entries[i].off && (!InRange(entries[i], cdOff) ==> !was[i].valid)
    requires AllJudged(entries, cdOff, order, was, j)
    ensures |xs| == |entries|
    ensures forall i :: 0 <= i < |entries| ==> xs[i].off == entries[i].off && (!InRange(entries[i], cdOff) ==> !xs[i].valid)
    ensures AllJudged(entries, cdOff, order, xs, j + 1)
  {
    xs := was;
    var i := order[j];
    assert Judged(entries, cdOff, order, was, j, j);
    if j + 1 < |order| { xs := xs[i := xs[i].(bound := entries[order[j + 1]].off)]; }
    var room := xs[i].bound - xs[i].off;
    if entries[i].compressed > (if room - HEADER > 0 then room - HEADER else 0) || room < HEADER {
      xs := xs[i := xs[i].(valid := false)];
      if j + 1 < |order| { xs := xs[order[j + 1] := xs[order[j + 1]].(valid := false)]; }
    }
    var done := j + 1;
    forall k | 0 <= k < |order| ensures Judged(entries, cdOff, order, xs, done, k) {
      assert Judged(entries, cdOff, order, was, j, k) && Apart(entries, order, j, k) && Apart(entries, order, k, j);
      if j + 1 < |order| { assert Apart(entries, order, j + 1, k) && Apart(entries, order, k, j + 1) && Apart(entries, order, j, j + 1); }
    }
  }

  /** The plan of these entries, and the order of those in range. */
  ghost predicate IsPlan(entries: seq<Entry>, cdOff: int, maxEntries: nat, allowance: nat, plan: Plan, order: seq<int>)
  {
    && IsOrder(entries, cdOff, order, |entries|) && |plan.extents| == |entries|
    && (forall i :: 0 <= i < |entries| ==> plan.extents[i].off == entries[i].off)
    && (forall i :: 0 <= i < |entries| && !InRange(entries[i], cdOff) ==> !plan.extents[i].valid)
    && AllJudged(entries, cdOff, order, plan.extents, |order|)
    && Selection(entries, maxEntries, allowance, plan.selected, plan.planned, plan.stop)
  }

  method PlanZip(entries: seq<Entry>, cdOff: int, maxEntries: nat, allowance: nat) returns (plan: Plan, ghost order: seq<int>)
    ensures IsPlan(entries, cdOff, maxEntries, allowance, plan, order)
  {
    var selected, planned, stop := Select(entries, maxEntries, allowance);
    var xs := seq(|entries|, i requires 0 <= i < |entries| => Extent(entries[i].off, cdOff, InRange(entries[i], cdOff)));
    var sorted := Order(entries, cdOff);
    for j := 0 to |sorted|
      invariant |xs| == |entries|
      invariant forall i :: 0 <= i < |entries| ==> xs[i].off == entries[i].off && (!InRange(entries[i], cdOff) ==> !xs[i].valid)
      invariant AllJudged(entries, cdOff, sorted, xs, j)
    {
      xs := Judge(entries, cdOff, sorted, xs, j);
    }
    plan, order := Plan(xs, selected, planned, stop), sorted;
  }

  /** After `done` of the entries in order have been looked at: the bound of each of those is the next one's
      offset, and an entry is valid unless it, or the one before it, does not fit. */
  predicate Judged(entries: seq<Entry>, cdOff: int, order: seq<int>, xs: seq<Extent>, done: int, j: int)
    requires 0 <= j < |order| && (forall k :: 0 <= k < |order| ==> 0 <= order[k] < |entries|) && |xs| == |entries|
  {
    var x := xs[order[j]];
    && x.bound == (if j < done then BoundAt(entries, cdOff, order, j) else cdOff)
    && x.valid == ((j < done ==> FitsAt(entries, cdOff, order, j)) && (0 < j <= done ==> FitsAt(entries, cdOff, order, j - 1)))
  }

  predicate AllJudged(entries: seq<Entry>, cdOff: int, order: seq<int>, xs: seq<Extent>, done: int)
    requires (forall k :: 0 <= k < |order| ==> 0 <= order[k] < |entries|) && |xs| == |entries|
  {
    forall k :: 0 <= k < |order| ==> Judged(entries, cdOff, order, xs, done, k)
  }

  // ------------------------------------------------------------------ what a plan promises

  /** The bytes that two valid entries claim are disjoint, and end before the central directory. */
  lemma ValidDisjoint(entries: seq<Entry>, cdOff: int, order: seq<int>, xs: seq<Extent>, j: int, k: int)
    requires IsOrder(entries, cdOff, order, |entries|) && |xs| == |entries| && AllJudged(entries, cdOff, order, xs, |order|)
    requires 0 <= j < k < |order| && xs[order[j]].valid
    ensures var x, y := entries[order[j]], entries[order[k]]; x.off + HEADER + x.compressed <= y.off <= cdOff
  {
    assert Judged(entries, cdOff, order, xs, |order|, j);
    assert order[k] in order && Apart(entries, order, j, k);
    if j + 1 < k { assert Apart(entries, order, j + 1, k); }
  }

  /** The bytes that the `j`-th entry in order claims reach into those of the `k`-th. */
  predicate Over(entries: seq<Entry>, order: seq<int>, j: int, k: int)
    requires 0 <= j < k < |order| && forall l :: 0 <= l < |order| ==> 0 <= order[l] < |entries|
  {
    entries[order[j]].off + HEADER + entries[order[j]].compressed > entries[order[k]].off
  }

  /** Every overlap marks both its sides exactly when each one beyond the next neighbour meets an entry that
      does not fit for another reason: it runs into its own neighbour, or the one before it does. */
  lemma OverlapsMarkedExactly(entries: seq<Entry>, cdOff: int, order: seq<int>, xs: seq<Extent>)
    requires IsOrder(entries, cdOff, order, |entries|) && |xs| == |entries| && AllJudged(entries, cdOff, order, xs, |order|)
    ensures (forall j, k :: 0 <= j < k < |order| && Over(entries, order, j, k) ==> BothMarked(xs, order, j, k))
      <==> (forall j, k :: 0 <= j && j + 1 < k < |order| && Over(entries, order, j, k) ==> Misfit(entries, cdOff, order, k))
  {
    forall j, k | 0 <= j < k < |order| && Over(entries, order, j, k)
      ensures BothMarked(xs, order, j, k) <==> j + 1 == k || Misfit(entries, cdOff, order, k)
    {
      OverlapMarks(entries, cdOff, order, xs, j, k);
    }
  }

  predicate BothMarked(xs: seq<Extent>, order: seq<int>, j: int, k: int)
    requires 0 <= j < k < |order| && forall l :: 0 <= l < |order| ==> 0 <= order[l] < |xs|
  {
    !xs[order[j]].valid && !xs[order[k]].valid
  }

  /** The `k`-th entry in order, or the one before it, runs into the next. */
  predicate Misfit(entries: seq<Entry>, cdOff: int, order: seq<int>, k: int)
    requires 0 < k < |order| && forall l :: 0 <= l < |order| ==> 0 <= order[l] < |entries|
  {
    !FitsAt(entries, cdOff, order, k) || !FitsAt(entries, cdOff, order, k - 1)
  }

  /** An overlap always marks its first side, and its second when that is the next neighbour. */
  lemma OverlapMarks(entries: seq<Entry>, cdOff: int, order: seq<int>, xs: seq<Extent>, j: int, k: int)
    requires IsOrder(entries, cdOff, order, |entries|) && |xs| == |entries| && AllJudged(entries, cdOff, order, xs, |order|)
    requires 0 <= j < k < |order| && Over(entries, order, j, k)
    ensures !xs[order[j]].valid && (BothMarked(xs, order, j, k) <==> j + 1 == k || Misfit(entries, cdOff, order, k))
  {
    assert Judged(entries, cdOff, order, xs, |order|, j) && Judged(entries, cdOff, order, xs, |order|, k);
    if j + 1 < k { assert Apart(entries, order, j + 1, k); }
  }

  /** Every entry lies in range, ends before the central directory, and runs into no other. */
  predicate AllFit(entries: seq<Entry>, cdOff: int)
  {
    && (forall i :: 0 <= i < |entries| ==>
          InRange(entries[i], cdOff) && entries[i].off + HEADER + entries[i].compressed <= cdOff)
    && (forall i, j :: 0 <= i < |entries| && 0 <= j < |entries| && i != j ==> Clear(entries, i, j))
  }

  predicate Clear(entries: seq<Entry>, i: int, j: int)
    requires 0 <= i < |entries| && 0 <= j < |entries|
  {
    entries[i].off <= entries[j].off ==> entries[i].off + HEADER + entries[i].compressed <= entries[j].off
  }

  /** All extents are valid exactly when the entries fit, whatever their order. */
  lemma AllValidExactly(entries: seq<Entry>, cdOff: int, order: seq<int>, xs: seq<Extent>)
    requires IsOrder(entries, cdOff, order, |entries|) && |xs| == |entries| && AllJudged(entries, cdOff, order, xs, |order|)
    requires forall i :: 0 <= i < |entries| ==> xs[i].off == entries[i].off && (!InRange(entries[i], cdOff) ==> !xs[i].valid)
    ensures AllValid(xs) <==> AllFit(entries, cdOff)
  {
    if AllValid(xs) {
      forall i | 0 <= i < |entries|
        ensures InRange(entries[i], cdOff) && entries[i].off + HEADER + entries[i].compressed <= cdOff
        ensures forall j :: 0 <= j < |entries| && i != j ==> Clear(entries, i, j)
      {
        ValidIsClear(entries, cdOff, order, xs, i);
      }
    }
    if AllFit(entries, cdOff) {
      forall i | 0 <= i < |xs| ensures xs[i].valid {
        assert i in order;
        var a :| 0 <= a < |order| && order[a] == i;
        FitIsFit(entries, cdOff, order, a);
        if a > 0 { FitIsFit(entries, cdOff, order, a - 1); }
        RefusedExactly(entries, cdOff, order, xs, a);
      }
    }
  }

  lemma FitIsFit(entries: seq<Entry>, cdOff: int, order: seq<int>, a: int)
    requires IsOrder(entries, cdOff, order, |entries|) && AllFit(entries, cdOff) && 0 <= a < |order|
    ensures FitsAt(entries, cdOff, order, a)
  {
    if a + 1 < |order| {
      assert Apart(entries, order, a, a + 1);
      assert Clear(entries, order[a], order[a + 1]);
    }
  }

  lemma ValidIsClear(entries: seq<Entry>, cdOff: int, order: seq<int>, xs: seq<Extent>, i: int)
    requires IsOrder(entries, cdOff, order, |entries|) && |xs| == |entries| && AllJudged(entries, cdOff, order, xs, |order|)
    requires AllValid(xs) && 0 <= i < |entries|
    requires forall j :: 0 <= j < |entries| && !InRange(entries[j], cdOff) ==> !xs[j].valid
    ensures InRange(entries[i], cdOff) && entries[i].off + HEADER + entries[i].compressed <= cdOff
    ensures forall j :: 0 <= j < |entries| && i != j ==> Clear(entries, i, j)
  {
    assert xs[i].valid && i in order;
    var a :| 0 <= a < |order| && order[a] == i;
    assert Judged(entries, cdOff, order, xs, |order|, a);
    if a + 1 < |order| { assert order[a + 1] in order; }
    forall j | 0 <= j < |entries| && i != j ensures Clear(entries, i, j) {
      assert xs[j].valid && j in order;
      var b :| 0 <= b < |order| && order[b] == j;
      if a < b { ValidDisjoint(entries, cdOff, order, xs, a, b); } else { ValidDisjoint(entries, cdOff, order, xs, b, a); }
    }
  }

  /** An entry in range is refused exactly when it, or its neighbour before it, does not fit. */
  lemma RefusedExactly(entries: seq<Entry>, cdOff: int, order: seq<int>, xs: seq<Extent>, j: int)
    requires IsOrder(entries, cdOff, order, |entries|) && |xs| == |entries| && AllJudged(entries, cdOff, order, xs, |order|)
    requires 0 <= j < |order|
    ensures xs[order[j]].valid <==> FitsAt(entries, cdOff, order, j) && (j > 0 ==> FitsAt(entries, cdOff, order, j - 1))
  {
    assert Judged(entries, cdOff, order, xs, |order|, j);
  }

  /** So an entry that overlaps more than its next neighbour marks that neighbour only: of three entries of
      which the first claims the bytes of both others, the third stays valid. */
  lemma FarOverlapUnmarked(xs: seq<Extent>)
    requires var entries := [Entry(0, 1000, 1000), Entry(100, 10, 10), Entry(200, 10, 10)];
      |xs| == 3 && AllJudged(entries, 5000, [0, 1, 2], xs, 3)
    ensures !xs[0].valid && !xs[1].valid && xs[2].valid
  {
    var entries := [Entry(0, 1000, 1000), Entry(100, 10, 10), Entry(200, 10, 10)];
    assert Judged(entries, 5000, [0, 1, 2], xs, 3, 0) && Judged(entries, 5000, [0, 1, 2], xs, 3, 1)
        && Judged(entries, 5000, [0, 1, 2], xs, 3, 2);
  }

  /** Where the extents begin, in physical order, and where the last ends. */
  function Tiles(entries: seq<Entry>, cdOff: int, order: seq<int>): (r: seq<int>)
    requires forall k :: 0 <= k < |order| ==> 0 <= order[k] < |entries|
    ensures |r| == |order| + 1 && r[|order|] == cdOff
    ensures forall j :: 0 <= j < |order| ==> r[j] == entries[order[j]].off
  {
    seq(|order|, j requires 0 <= j < |order| => entries[order[j]].off) + [cdOff]
  }

  function Offs(xs: seq<Extent>): (r: seq<int>)
    ensures |r| == |xs| && forall i :: 0 <= i < |xs| ==> r[i] == xs[i].off
  {
    seq(|xs|, i requires 0 <= i < |xs| => xs[i].off)
  }

  function Bounds(xs: seq<Extent>): (r: seq<int>)
    ensures |r| == |xs| && forall i :: 0 <= i < |xs| ==> r[i] == xs[i].bound
  {
    seq(|xs|, i requires 0 <= i < |xs| => xs[i].bound)
  }

  predicate AllValid(xs: seq<Extent>)
  {
    forall i :: 0 <= i < |xs| ==> xs[i].valid
  }

  /** When every extent is valid, they lie one after another up to the central directory. */
  lemma ValidTile(entries: seq<Entry>, cdOff: int, order: seq<int>, xs: seq<Extent>, size: int)
    requires IsOrder(entries, cdOff, order, |entries|) && |xs| == |entries| && AllJudged(entries, cdOff, order, xs, |order|)
    requires AllValid(xs) && 0 <= cdOff <= size
    ensures Tiling(Tiles(entries, cdOff, order), size)
  {
    var tiles := Tiles(entries, cdOff, order);
    forall s, t | 0 <= s < t < |tiles| ensures tiles[s] < tiles[t] {
      if t < |order| {
        ValidDisjoint(entries, cdOff, order, xs, s, t);
      } else {
        assert order[s] in order;
      }
    }
    assert order != [] ==> order[0] in order;
  }

  /** And taken in the order of the central directory they are the tiles, each once. */
  lemma ValidCover(entries: seq<Entry>, cdOff: int, order: seq<int>, xs: seq<Extent>) returns (places: seq<int>)
    requires IsOrder(entries, cdOff, order, |entries|) && |xs| == |entries| && AllJudged(entries, cdOff, order, xs, |order|)
    requires AllValid(xs)
    requires forall i :: 0 <= i < |entries| ==> xs[i].off == entries[i].off && (!InRange(entries[i], cdOff) ==> !xs[i].valid)
    ensures Covers(places, Tiles(entries, cdOff, order), Offs(xs), Bounds(xs))
  {
    places := [];
    while |places| < |entries|
      invariant |places| <= |entries|
      invariant forall i :: 0 <= i < |places| ==> 0 <= places[i] < |order| && order[places[i]] == i
    {
      var i := |places|;
      assert xs[i].valid && i in order;
      var j :| 0 <= j < |order| && order[j] == i;
      places := places + [j];
    }
    var tiles := Tiles(entries, cdOff, order);
    forall i | 0 <= i < |places| ensures TileAt(places, tiles, Offs(xs), Bounds(xs), i) {
      assert Judged(entries, cdOff, order, xs, |order|, places[i]);
    }
    forall t | 0 <= t < |order| ensures t in places {
      assert order[t] in order;
      var u := places[order[t]];
      assert Apart(entries, order, t, u) && Apart(entries, order, u, t);
    }
  }
}
