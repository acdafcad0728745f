/** The attempt to commit to a whole ZIP file while its entries are read one by one. */
module ZipFile {
  import opened ZipOrder
  import opened ZipPlan
  import opened ZipHash

  /** The extents all start at or after this. */
  method First(xs: seq<Extent>, cdOff: int) returns (first: int)
    ensures first <= cdOff && forall i :: 0 <= i < |xs| ==> first <= xs[i].off
    ensures first == cdOff || exists i :: 0 <= i < |xs| && first == xs[i].off
  {
    first := cdOff;
    for i := 0 to |xs|
      invariant first <= cdOff && forall k :: 0 <= k < i ==> first <= xs[k].off
      invariant first == cdOff || exists k :: 0 <= k < i && first == xs[k].off
    {
      if xs[i].off < first { first := xs[i].off; }
    }
  }

  lemma FirstTile(entries: seq<Entry>, cdOff: int, order: seq<int>, xs: seq<Extent>, size: int, first: int)
    requires IsOrder(entries, cdOff, order, |entries|) && |xs| == |entries| && AllValid(xs)
    requires forall i :: 0 <= i < |entries| ==> xs[i].off == entries[i].off && (!InRange(entries[i], cdOff) ==> !xs[i].valid)
    requires Tiling(Tiles(entries, cdOff, order), size)
    requires first <= cdOff && forall i :: 0 <= i < |xs| ==> first <= xs[i].off
    requires first == cdOff || exists i :: 0 <= i < |xs| && first == xs[i].off
    ensures first == Tiles(entries, cdOff, order)[0]
  {
    var tiles := Tiles(entries, cdOff, order);
    forall j | 0 <= j < |order| ensures first <= tiles[j] {
      assert tiles[j] == xs[order[j]].off;
    }
    if first != cdOff {
      var i :| 0 <= i < |xs| && first == xs[i].off;
      assert xs[i].valid && i in order;
      var j :| 0 <= j < |order| && order[j] == i;
      assert tiles[0] <= tiles[j] == first;
    }
  }

  function Compressed(entries: seq<Entry>): nat
  {
    if entries == [] then 0 else Compressed(entries[..|entries| - 1]) + entries[|entries| - 1].compressed
  }

  /** Every entry is selected, fits and can be read, and what lies between the entries is within the allowance. */
  predicate Ready(entries: seq<Entry>, readable: seq<bool>, cdOff: int, maxEntries: nat, allowance: nat)
  {
    && |entries| <= maxEntries && Total(entries) <= allowance && AllFit(entries, cdOff)
    && (forall i :: 0 <= i < |readable| ==> readable[i]) && cdOff - Compressed(entries) <= allowance
  }

  /** The central directory lists the entries as they lie in the file. */
  predicate Physical(entries: seq<Entry>)
  {
    forall i, j :: 0 <= i < j < |entries| ==> entries[i].off <= entries[j].off
  }

  lemma {:induction false} TotalGrows(entries: seq<Entry>, n: int)
    requires 0 <= n <= |entries|
    ensures Total(entries[..n]) <= Total(entries)
  {
    if n == |entries| {
      assert entries[..n] == entries;
    } else {
      TotalGrows(entries[..|entries| - 1], n);
      assert entries[..|entries| - 1][..n] == entries[..n];
    }
  }

  /** All entries are selected exactly when their number and their bytes are within the caps. */
  lemma SelectedExactly(entries: seq<Entry>, maxEntries: nat, allowance: nat, selected: int, planned: int, stop: string)
    requires Selection(entries, maxEntries, allowance, selected, planned, stop)
    ensures selected == |entries| <==> |entries| <= maxEntries && Total(entries) <= allowance
  {
    if selected == |entries| {
      assert entries[..selected] == entries;
    } else {
      TotalGrows(entries, selected + 1);
    }
  }

  /** In physical order the entries are the tiles one by one. */
  lemma PhysicalPlaces(entries: seq<Entry>, places: seq<int>, tiles: seq<int>, offs: seq<int>, bounds: seq<int>, size: int)
    requires Covers(places, tiles, offs, bounds) && Tiling(tiles, size) && Physical(entries)
    requires |entries| == |offs| && forall i :: 0 <= i < |offs| ==> offs[i] == entries[i].off
    ensures forall i :: 0 <= i < |places| ==> places[i] == i
  {
    forall i, j | 0 <= i < j < |places| ensures places[i] < places[j] {
      assert TileAt(places, tiles, offs, bounds, i) && TileAt(places, tiles, offs, bounds, j);
      assert entries[i].off <= entries[j].off;
    }
    forall i | 0 <= i < |places| ensures 0 <= places[i] < |tiles| - 1 { assert TileAt(places, tiles, offs, bounds, i); }
    forall i | 0 <= i < |places| ensures places[i] == i {
      RisingOnto(places, |tiles| - 1, i);
    }
  }

  /** A rising list onto the numbers below `n` is those numbers. */
  lemma {:induction false} RisingOnto(places: seq<int>, n: int, i: int)
    requires forall j, k :: 0 <= j < k < |places| ==> places[j] < places[k]
    requires (forall j :: 0 <= j < |places| ==> 0 <= places[j] < n) && forall t :: 0 <= t < n ==> t in places
    requires 0 <= i < |places|
    ensures places[i] == i
    decreases i
  {
    if i > 0 { RisingOnto(places, n, i - 1); }
    assert i <= places[i] < n && i in places;
    var j :| 0 <= j < |places| && places[j] == i;
    if j < i { RisingOnto(places, n, j); }
  }

  /** The memory is there to hold back every extent of the plan. */
  predicate Ample(limit: int, memory: Memory, xs: seq<Extent>)
    reads memory
  {
    var n := AllCharges(Offs(xs), Bounds(xs));
    n <= limit && n <= memory.limit - Max(HEADROOM, memory.limit / 8) - memory.used && !memory.failed
  }

  /** Whether a full commitment is to be tried. */
  method Attempt(entries: seq<Entry>, readable: seq<bool>, cdOff: int, maxEntries: nat, allowance: nat)
    returns (plan: Plan, complete: bool, ghost order: seq<int>)
    requires |readable| == |entries|
    ensures IsPlan(entries, cdOff, maxEntries, allowance, plan, order)
    ensures complete <==> Ready(entries, readable, cdOff, maxEntries, allowance)
    ensures complete ==> AllValid(plan.extents)
  {
    plan, order := PlanZip(entries, cdOff, maxEntries, allowance);
    complete := plan.selected == |plan.extents|;
    SelectedExactly(entries, maxEntries, allowance, plan.selected, plan.planned, plan.stop);
    AllValidExactly(entries, cdOff, order, plan.extents);
    var compressed := 0;
    for i := 0 to |entries|
      invariant complete <==> plan.selected == |entries| && forall k :: 0 <= k < i ==> plan.extents[k].valid && readable[k]
      invariant compressed == Compressed(entries[..i])
    {
      assert entries[..i + 1][..i] == entries[..i];
      compressed := compressed + entries[i].compressed;
      if !plan.extents[i].valid || !readable[i] { complete := false; }
    }
    assert entries[..|entries|] == entries;
    if cdOff - compressed > allowance { complete := false; }
  }

  /** The whole file's digest, if it can be had.  It is had whenever the entries are ready and either lie in the
      order of the central directory or have, with no other reader about, the memory to be held back. */
  method FullCommitment(file: Bytes, entries: seq<Entry>, readable: seq<bool>, cdOff: int, maxEntries: nat, allowance: nat,
                        limit: int, memory: Memory, pieces: int -> int -> int, others: int -> seq<int>)
    returns (full: FullHash?, ok: bool, plan: Plan, ghost order: seq<int>)
    requires 0 <= cdOff <= |file| && |readable| == |entries|
    modifies memory`used
    ensures IsPlan(entries, cdOff, maxEntries, allowance, plan, order)
    ensures ok ==> full != null && full.fed == file && Ready(entries, readable, cdOff, maxEntries, allowance)
    ensures Ready(entries, readable, cdOff, maxEntries, allowance) && Physical(entries) ==> ok
    ensures (Ready(entries, readable, cdOff, maxEntries, allowance) && (forall i :: others(i) == [])
             && old(Ample(limit, memory, plan.extents))) ==> ok
    ensures (forall i :: others(i) == []) ==> memory.used == old(memory.used)
  {
    full, ok := null, false;
    var complete;
    plan, complete, order := Attempt(entries, readable, cdOff, maxEntries, allowance);
    if !complete { return; }
    var first := First(plan.extents, cdOff);
    ghost var tiles := Tiles(entries, cdOff, order);
    ValidTile(entries, cdOff, order, plan.extents, |file|);
    FirstTile(entries, cdOff, order, plan.extents, |file|, first);
    ghost var places := ValidCover(entries, cdOff, order, plan.extents);
    if Physical(entries) { PhysicalPlaces(entries, places, tiles, Offs(plan.extents), Bounds(plan.extents), |file|); }
    full := new FullHash(limit, memory, file, tiles, file[..first]);
    ok := HashAll(full, file, places, Offs(plan.extents), Bounds(plan.extents), cdOff, pieces, others);
  }
}
