/** Partitions of a census by class, as they are published: small cells are merged until none shows fewer
    than ten members, or nothing is shown. */
module Occupancy {
  import opened Naming
  import opened Cells

  /** A published number, a published band, or nothing. */
  datatype Shown = Exact(n: int) | Band(text: string) | Absent

  datatype State = NotChecked | Suppressed | Checked

  datatype Cell = Cell(name: string, members: int)

  datatype Partition = Partition(state: State, population: Shown, cells: seq<Cell>)

  function CountBand(n: int): string
  {
    if n == 0 then "0" else if n < 10 then "1-9" else if n < 100 then "10-99" else if n < 1000 then "100-999" else "1000+"
  }

  function SizeBucket(n: int): string
  {
    if n == 0 then "0"
    else if n < 1024 then "<1KB"
    else if n < 10 * 1024 then "<10KB"
    else if n < 100 * 1024 then "<100KB"
    else if n < 1024 * 1024 then "<1MB"
    else if n < 10 * 1024 * 1024 then "<10MB"
    else if n < 100 * 1024 * 1024 then "<100MB"
    else ">=100MB"
  }

  function Population(n: int): Shown
  {
    if n < 10 then Band(CountBand(n)) else Exact(n)
  }

  function FindingState(n: int): State
  {
    if n == 0 then NotChecked else if n < 10 then Suppressed else Checked
  }

  function PartCount(part: int, whole: int): Shown
  {
    if part >= 10 && whole - part >= 10 then Exact(part) else Band(CountBand(part))
  }

  function ByteCount(n: int, population: int, exact: bool): Shown
  {
    if population >= 10 && exact then Exact(n) else Band(SizeBucket(n))
  }

  const FULLY := "fully_read"
  const PARTLY := "partly_read"
  const UNREAD := "unread"
  const OTHER := "other"

  function At(m: Cells, k: string): int
  {
    if k in m then m[k] else 0
  }

  /** The cells with members. */
  function Positive(counts: Cells): (r: Cells)
    ensures forall k :: k in r <==> k in counts && counts[k] > 0
    ensures forall k :: k in r ==> r[k] == counts[k]
  {
    map k | k in counts && counts[k] > 0 :: counts[k]
  }

  predicate LowMap(m: Cells)
  {
    exists k :: k in m && 0 < m[k] < 10
  }

  // ------------------------------------------------------------------ merging

  /** The cells of ten and more. */
  function Large(cells: Cells): (r: Cells)
    ensures forall k :: k in r <==> k in cells && cells[k] >= 10
    ensures forall k :: k in r ==> r[k] == cells[k]
  {
    map k | k in cells && cells[k] >= 10 :: cells[k]
  }

  /** The smallest cells go one by one into the rest, until it has ten members or no cell is left. */
  ghost function Absorb(cells: Cells, rest: int): (Cells, int)
    decreases |cells|
  {
    if rest >= 10 || cells == map[] then (cells, rest)
    else
      var k := Smallest(cells);
      Absorb(cells - {k}, rest + cells[k])
  }

  ghost function Smallest(cells: Cells): (k: string)
    requires cells != map[]
    ensures IsSmallest(cells, k)
  {
    SmallestExists(cells);
    var k :| IsSmallest(cells, k);
    k
  }

  lemma {:induction false} SmallestExists(cells: Cells)
    requires cells != map[]
    ensures exists k :: IsSmallest(cells, k)
    decreases |cells|
  {
    var p := Pick(cells);
    NameOrder(p, p, p);
    if cells - {p} == map[] {
      assert forall l :: l in cells && l != p ==> l in cells - {p};
      assert IsSmallest(cells, p);
    } else {
      SmallestExists(cells - {p});
      var k :| IsSmallest(cells - {p}, k);
      NameOrder(p, k, p);
      var best := if Before(cells, p, k) then p else k;
      forall l | l in cells ensures Before(cells, best, l) {
        if l != p { assert Before(cells - {p}, k, l); NameOrder(p, k, l); }
      }
      assert IsSmallest(cells, best);
    }
  }

  /** What the cells of a partition come to. */
  ghost function Merged(counts: Cells, readState: bool): Cells
  {
    var cells := Positive(counts);
    if readState then MergedStates(cells) else MergedClasses(cells)
  }

  ghost function MergedClasses(cells: Cells): Cells
  {
    var large := Large(cells);
    var small := Sum(cells) - Sum(large);
    if small > 0 then WithOther(Absorb(large, small)) else large
  }

  /** The rest joins the cell of that name. */
  function WithOther(p: (Cells, int)): Cells
  {
    p.0[OTHER := At(p.0, OTHER) + p.1]
  }

  function MergedStates(cells: Cells): Cells
  {
    if !LowMap(cells) then cells
    else
      var n := At(cells, FULLY) + At(cells, PARTLY);
      var read := (cells - {FULLY, PARTLY})[OTHER := n];
      if At(read, UNREAD) < 10 || n < 10 then (read - {UNREAD})[OTHER := n + At(read, UNREAD)] else read
  }

  // ------------------------------------------------------------------ what merging keeps

  lemma {:induction false} AbsorbKeeps(cells: Cells, rest: int)
    requires forall k :: k in cells ==> cells[k] >= 10
    ensures var (left, r) := Absorb(cells, rest);
      && Sum(left) + r == Sum(cells) + rest
      && (forall k :: k in left ==> left[k] >= 10)
      && (left == map[] || r >= 10)
      && r >= rest
    decreases |cells|
  {
    if rest < 10 && cells != map[] {
      var k := Smallest(cells);
      SumRemove(cells, k);
      AbsorbKeeps(cells - {k}, rest + cells[k]);
    }
  }

  /** No cell, or one, or each of ten members and more. */
  predicate NoneSmall(m: Cells)
  {
    |m| >= 2 ==> forall k :: k in m ==> m[k] >= 10
  }

  lemma ClassesKeep(cells: Cells)
    requires forall k :: k in cells ==> cells[k] > 0
    ensures Sum(MergedClasses(cells)) == Sum(cells) && NoneSmall(MergedClasses(cells))
  {
    var large := Large(cells);
    var small := Sum(cells) - Sum(large);
    LargeSum(cells);
    if small > 0 { RestKeeps(large, small); }
    assert MergedClasses(cells) == if small > 0 then WithOther(Absorb(large, small)) else large;
  }

  lemma RestKeeps(large: Cells, small: int)
    requires (forall k :: k in large ==> large[k] >= 10) && small > 0
    ensures var m := WithOther(Absorb(large, small)); Sum(m) == Sum(large) + small && NoneSmall(m)
  {
    AbsorbKeeps(large, small);
    WithRest(Absorb(large, small));
  }

  lemma WithRest(p: (Cells, int))
    requires (forall k :: k in p.0 ==> p.0[k] >= 10) && p.1 >= 0 && (p.0 == map[] || p.1 >= 10)
    ensures Sum(WithOther(p)) == Sum(p.0) + p.1 && NoneSmall(WithOther(p))
  {
    var (left, rest) := p;
    SumPut(left, OTHER, At(left, OTHER) + rest);
    SumDrop(left, OTHER);
    if left == map[] { OneCell(OTHER, rest); }
  }

  /** Merging moves members, it never loses or adds one; and if two cells are left, each has ten members. */
  lemma MergedKeeps(counts: Cells, readState: bool)
    requires forall k :: k in counts ==> counts[k] >= 0
    requires readState ==> counts.Keys <= {FULLY, PARTLY, UNREAD}
    ensures Sum(Merged(counts, readState)) == Sum(counts) && NoneSmall(Merged(counts, readState))
  {
    PositiveSum(counts);
    if readState { StatesKeep(Positive(counts)); } else { ClassesKeep(Positive(counts)); }
  }

  lemma {:induction false} PositiveSum(counts: Cells)
    requires forall k :: k in counts ==> counts[k] >= 0
    ensures Sum(Positive(counts)) == Sum(counts)
    decreases |counts|
  {
    if counts == map[] {
      assert Positive(counts) == map[];
    } else {
      var k := Pick(counts);
      PositiveSum(counts - {k});
      if counts[k] > 0 {
        assert Positive(counts) - {k} == Positive(counts - {k});
        SumRemove(Positive(counts), k);
      } else {
        assert Positive(counts) == Positive(counts - {k});
      }
    }
  }

  /** The small cells hold members just when there is one. */
  lemma {:induction false} LargeSum(cells: Cells)
    requires forall k :: k in cells ==> cells[k] > 0
    ensures Sum(Large(cells)) <= Sum(cells)
    ensures Sum(Large(cells)) == Sum(cells) <==> Large(cells) == cells
    decreases |cells|
  {
    if cells == map[] {
      assert Large(cells) == map[];
    } else {
      var k := Pick(cells);
      var less := cells - {k};
      LargeSum(less);
      if cells[k] >= 10 {
        assert Large(cells) - {k} == Large(less);
        SumRemove(Large(cells), k);
        if Large(less) == less {
          forall l | l in cells ensures l in Large(cells) { assert l == k || l in less; }
          assert Large(cells) == cells;
        }
      } else {
        assert Large(cells) == Large(less);
      }
    }
  }

  /** The read states where some cell is small: what was read together, unless that or the rest is small too. */
  lemma StatesMerge(cells: Cells)
    requires forall k :: k in cells ==> cells[k] > 0
    requires cells.Keys <= {FULLY, PARTLY, UNREAD} && LowMap(cells)
    ensures var read, unread := At(cells, FULLY) + At(cells, PARTLY), At(cells, UNREAD);
      MergedStates(cells) == if unread < 10 || read < 10 then map[OTHER := read + unread] else map[OTHER := read, UNREAD := unread]
  {}

  lemma SumOfStates(cells: Cells)
    requires cells.Keys <= {FULLY, PARTLY, UNREAD}
    ensures Sum(cells) == At(cells, FULLY) + At(cells, PARTLY) + At(cells, UNREAD)
  {
    SumDrop(cells, FULLY);
    SumDrop(cells - {FULLY}, PARTLY);
    SumDrop(cells - {FULLY} - {PARTLY}, UNREAD);
    assert cells - {FULLY} - {PARTLY} - {UNREAD} == map[];
  }

  lemma StatesKeep(cells: Cells)
    requires forall k :: k in cells ==> cells[k] > 0
    requires cells.Keys <= {FULLY, PARTLY, UNREAD}
    ensures Sum(MergedStates(cells)) == Sum(cells) && NoneSmall(MergedStates(cells))
  {
    if LowMap(cells) {
      StatesMerge(cells);
      SumOfStates(cells);
      TwoStates(At(cells, FULLY) + At(cells, PARTLY), At(cells, UNREAD));
    }
  }

  lemma TwoStates(read: int, unread: int)
    ensures Sum(map[OTHER := read + unread]) == read + unread && |map[OTHER := read + unread]| == 1
    ensures Sum(map[OTHER := read, UNREAD := unread]) == read + unread
  {
    OneCell(OTHER, read + unread);
    OneCell(OTHER, read);
    SumPut(map[OTHER := read], UNREAD, unread);
    assert map[OTHER := read] - {UNREAD} == map[OTHER := read];
    assert map[OTHER := read][UNREAD := unread] == map[OTHER := read, UNREAD := unread];
  }

  lemma OneCell(k: string, n: int)
    ensures Sum(map[k := n]) == n && |map[k := n]| == 1
  {
    SumRemove(map[k := n], k);
    assert map[k := n] - {k} == map[];
  }

  // ------------------------------------------------------------------ the published partition

  /** The cells of these names, in this order. */
  function Listing(m: Cells, names: seq<string>): (r: seq<Cell>)
    requires forall i :: 0 <= i < |names| ==> names[i] in m
    ensures |r| == |names| && forall i :: 0 <= i < |r| ==> r[i] == Cell(names[i], m[names[i]])
  {
    seq(|names|, i requires 0 <= i < |names| => Cell(names[i], m[names[i]]))
  }

  ghost function PartitionOf(counts: Cells, population: int, readState: bool): Partition
  {
    if population < 10 then Partition(FindingState(population), Population(population), [])
    else Shows(Merged(counts, readState), population)
  }

  ghost function Shows(m: Cells, population: int): Partition
  {
    if |m| <= 1 then Partition(Suppressed, Population(population), [])
    else Partition(Checked, Population(population), Listing(m, Names(m)))
  }

  function Members(cells: seq<Cell>): int
  {
    if cells == [] then 0 else cells[0].members + Members(cells[1..])
  }

  /** The names are those of all cells, each once. */
  ghost predicate NamesAll(m: Cells, names: seq<string>)
  {
    && (forall i :: 0 <= i < |names| ==> names[i] in m)
    && (forall k :: k in m ==> k in names)
    && (forall i, j :: 0 <= i < j < |names| ==> names[i] != names[j])
  }

  lemma NamesTail(m: Cells, names: seq<string>)
    requires NamesAll(m, names) && names != []
    ensures NamesAll(m - {names[0]}, names[1..]) && |m - {names[0]}| == |m| - 1
  {
    assert (m - {names[0]}).Keys == m.Keys - {names[0]};
    forall k | k in m - {names[0]} ensures k in names[1..] {
      var i :| 0 <= i < |names| && names[i] == k;
      assert names[1..][i - 1] == k;
    }
  }

  lemma {:induction false} ListingSum(m: Cells, names: seq<string>, cells: seq<Cell>)
    requires NamesAll(m, names) && |cells| == |names|
    requires forall i :: 0 <= i < |cells| ==> cells[i].members == m[names[i]]
    ensures Members(cells) == Sum(m) && |names| == |m|
    decreases |names|
  {
    if names == [] {
      assert m.Keys == {};
    } else {
      SumRemove(m, names[0]);
      NamesTail(m, names);
      ListingSum(m - {names[0]}, names[1..], cells[1..]);
    }
  }

  lemma ListingMeans(m: Cells)
    ensures var cells := Listing(m, Names(m));
      && |cells| == |m| && Members(cells) == Sum(m)
      && (forall i :: 0 <= i < |cells| ==> cells[i].name in m && cells[i].members == m[cells[i].name])
      && (forall i, j :: 0 <= i < j < |cells| ==> cells[i].name != cells[j].name)
  {
    ListingSum(m, Names(m), Listing(m, Names(m)));
  }

  /** What is shown of a partition: two cells or more, each of ten members or more, that sum to the counts;
      or no cell at all. */
  lemma Published(counts: Cells, population: int, readState: bool)
    requires forall k :: k in counts ==> counts[k] >= 0
    requires readState ==> counts.Keys <= {FULLY, PARTLY, UNREAD}
    ensures IsSafe(PartitionOf(counts, population, readState), Sum(counts))
  {
    MergedKeeps(counts, readState);
    ShownIsSafe(Merged(counts, readState), population);
  }

  predicate IsSafe(p: Partition, total: int)
  {
    && (p.state == Checked ==> |p.cells| >= 2 && Members(p.cells) == total)
    && (forall i :: 0 <= i < |p.cells| ==> p.cells[i].members >= 10)
    && (forall i, j :: 0 <= i < j < |p.cells| ==> p.cells[i].name != p.cells[j].name)
    && (p.state != Checked ==> p.cells == [])
  }

  lemma ShownIsSafe(m: Cells, population: int)
    requires NoneSmall(m)
    ensures IsSafe(Shows(m, population), Sum(m))
  {
    ListingMeans(m);
  }

  /** The shown cells fall short of the shown population by one to nine: subtracting them tells that few. */
  predicate TellsRest(p: Partition)
  {
    p.state == Checked && p.population.Exact? && 1 <= p.population.n - Members(p.cells) <= 9
  }

  /** The members of the small cells. */
  ghost function SmallSum(counts: Cells): int
  {
    Sum(Positive(counts)) - Sum(Large(Positive(counts)))
  }

  /** Two cells of ten and more are left once the small ones, if there are any, are taken together, and with them
      the smallest of the others while they are fewer than ten. */
  ghost predicate Visible(counts: Cells, population: int)
  {
    var large, small := Large(Positive(counts)), SmallSum(counts);
    && population >= 10
    && if small == 0 then |large| >= 2 else exists k :: k in large && k != OTHER && (small >= 10 || k != Smallest(large))
  }

  lemma OneNameLeft(m: Cells, v: int)
    ensures |m[OTHER := v]| >= 2 <==> exists k :: k in m && k != OTHER
  {
    var keys := m.Keys + {OTHER};
    assert m[OTHER := v].Keys == keys && keys == {OTHER} + (m.Keys - {OTHER});
    if k :| k in m && k != OTHER {
      assert k in m.Keys - {OTHER};
    } else {
      assert m.Keys - {OTHER} == {};
    }
  }

  lemma AbsorbedOnce(large: Cells, small: int)
    requires (forall k :: k in large ==> large[k] >= 10) && small > 0
    ensures Absorb(large, small) == if small >= 10 || large == map[] then (large, small)
                                    else (large - {Smallest(large)}, small + large[Smallest(large)])
  {}

  /** A partition by class is shown exactly when its counts let two such cells be. */
  lemma ShownExactly(counts: Cells, population: int)
    requires forall k :: k in counts ==> counts[k] >= 0
    ensures PartitionOf(counts, population, false).state == Checked <==> Visible(counts, population)
  {
    var large, small := Large(Positive(counts)), SmallSum(counts);
    LargeSum(Positive(counts));
    if small > 0 {
      AbsorbedOnce(large, small);
      var left := Absorb(large, small);
      OneNameLeft(left.0, At(left.0, OTHER) + left.1);
      LeftNames(large, small);
    }
  }

  lemma LeftNames(large: Cells, small: int)
    requires (forall k :: k in large ==> large[k] >= 10) && small > 0
    ensures (exists k :: k in Absorb(large, small).0 && k != OTHER)
      <==> exists k :: k in large && k != OTHER && (small >= 10 || k != Smallest(large))
  {
    AbsorbedOnce(large, small);
    var left := Absorb(large, small).0;
    forall k | k in large ensures k in left <==> small >= 10 || k != Smallest(large) {}
  }

  /** So a partition by class tells a small rest exactly when it is shown and its counts leave one; never when they
      make up the population. */
  lemma RestTold(counts: Cells, population: int)
    requires forall k :: k in counts ==> counts[k] >= 0
    ensures TellsRest(PartitionOf(counts, population, false)) <==> Visible(counts, population) && 1 <= population - Sum(counts) <= 9
  {
    Published(counts, population, false);
    ShownExactly(counts, population);
  }

  /** A read state is shown exactly with ten members, and either no state of one to nine and two that occur, or
      ten that were read, wholly or in part, and ten that were not. */
  predicate StatesVisible(fully: int, partly: int, unread: int, population: int)
  {
    && population >= 10
    && if SomeFew(fully, partly, unread) then fully + partly >= 10 && unread >= 10
       else (fully > 0 && partly > 0) || (fully > 0 && unread > 0) || (partly > 0 && unread > 0)
  }

  predicate SomeFew(fully: int, partly: int, unread: int)
  {
    0 < fully < 10 || 0 < partly < 10 || 0 < unread < 10
  }

  /** What a read state comes to. */
  lemma StatesMergedAs(states: Cells, fully: int, partly: int, unread: int)
    requires states == map[FULLY := fully, PARTLY := partly, UNREAD := unread] && fully >= 0 && partly >= 0 && unread >= 0
    ensures Merged(states, true)
      == if !SomeFew(fully, partly, unread) then Positive(states)
         else if unread < 10 || fully + partly < 10 then map[OTHER := fully + partly + unread]
         else map[OTHER := fully + partly, UNREAD := unread]
  {
    var cells := Positive(states);
    assert At(cells, FULLY) == fully && At(cells, PARTLY) == partly && At(cells, UNREAD) == unread;
    if SomeFew(fully, partly, unread) {
      assert LowMap(cells) by {
        assert 0 < At(cells, FULLY) < 10 || 0 < At(cells, PARTLY) < 10 || 0 < At(cells, UNREAD) < 10;
      }
      StatesMerge(cells);
    }
  }

  lemma StatesShownExactly(states: Cells, fully: int, partly: int, unread: int, population: int)
    requires states == map[FULLY := fully, PARTLY := partly, UNREAD := unread] && fully >= 0 && partly >= 0 && unread >= 0
    ensures PartitionOf(states, population, true).state == Checked <==> StatesVisible(fully, partly, unread, population)
  {
    StatesMergedAs(states, fully, partly, unread);
    if SomeFew(fully, partly, unread) {
      OneCell(OTHER, fully + partly + unread);
      assert map[OTHER := fully + partly, UNREAD := unread].Keys == {OTHER, UNREAD};
    } else {
      var cells := Positive(states);
      TwoOf(cells.Keys, FULLY, PARTLY, UNREAD);
    }
  }

  lemma TwoOf<T>(names: set<T>, a: T, b: T, c: T)
    requires names <= {a, b, c} && a != b && b != c && a != c
    ensures |names| >= 2 <==> (a in names && b in names) || (a in names && c in names) || (b in names && c in names)
  {
    if a in names && b in names {
      Two(names, a, b);
    } else if a in names && c in names {
      Two(names, a, c);
    } else if b in names && c in names {
      Two(names, b, c);
    } else {
      AtMostOne(names, if a in names then a else if b in names then b else c);
    }
  }

  lemma Two<T>(names: set<T>, a: T, b: T)
    requires a in names && b in names && a != b
    ensures |names| >= 2
  {
    assert names == {a, b} + (names - {a, b});
  }

  lemma AtMostOne<T>(names: set<T>, a: T)
    requires names <= {a}
    ensures |names| <= 1
  {
    assert names == {} || names == {a};
  }

  // ------------------------------------------------------------------ a cell of the listing

  /** The members shown under a name. */
  function CellOf(cells: seq<Cell>, name: string): int
  {
    if cells == [] then 0 else (if cells[0].name == name then cells[0].members else 0) + CellOf(cells[1..], name)
  }

  lemma {:induction false} CellListed(m: Cells, names: seq<string>, cells: seq<Cell>, name: string)
    requires NamesAll(m, names) && |cells| == |names|
    requires forall i :: 0 <= i < |cells| ==> cells[i] == Cell(names[i], m[names[i]])
    ensures CellOf(cells, name) == At(m, name)
    decreases |names|
  {
    if names == [] {
      assert m.Keys == {};
    } else {
      NamesTail(m, names);
      CellListed(m - {names[0]}, names[1..], cells[1..], name);
    }
  }

  lemma CellShown(m: Cells, name: string)
    ensures CellOf(Listing(m, Names(m)), name) == At(m, name)
  {
    CellListed(m, Names(m), Listing(m, Names(m)), name);
  }

  // ------------------------------------------------------------------ the loops that build it

  /** Takes the small cells out, in any order. */
  method TakeSmall(cells0: Cells) returns (cells: Cells, rest: int)
    ensures cells == Large(cells0) && rest == Sum(cells0) - Sum(Large(cells0))
  {
    cells, rest := cells0, 0;
    var todo := cells0.Keys;
    while todo != {}
      invariant todo <= cells0.Keys && Sum(cells) + rest == Sum(cells0)
      invariant forall k :: k in cells <==> k in cells0 && (k in todo || cells0[k] >= 10)
      invariant forall k :: k in cells ==> cells[k] == cells0[k]
      decreases |todo|
    {
      var k :| k in todo;
      todo := todo - {k};
      if cells[k] < 10 {
        SumRemove(cells, k);
        rest := rest + cells[k];
        cells := cells - {k};
      }
    }
    assert cells == Large(cells0);
  }

  /** Merges until the rest has ten members. */
  method Enlarge(cells0: Cells, rest0: int) returns (cells: Cells, rest: int)
    requires "" !in cells0
    ensures (cells, rest) == Absorb(cells0, rest0)
  {
    cells, rest := cells0, rest0;
    while rest < 10 && cells != map[]
      invariant "" !in cells && Absorb(cells, rest) == Absorb(cells0, rest0)
      decreases |cells|
    {
      var key := FindSmallest(cells);
      SmallestIsOne(cells, key, Smallest(cells));
      rest := rest + cells[key];
      cells := cells - {key};
    }
  }

  method MergeClasses(cells0: Cells) returns (cells: Cells)
    requires "" !in cells0
    ensures cells == MergedClasses(cells0)
  {
    var rest;
    cells, rest := TakeSmall(cells0);
    if rest > 0 {
      cells, rest := Enlarge(cells, rest);
      cells := cells[OTHER := At(cells, OTHER) + rest];
    }
  }

  /** A partition from counts by class; the order in which maps are walked does not matter. */
  method BuildPartition(counts: Cells, population: int, readState: bool) returns (out: Partition)
    requires "" !in counts
    ensures out == PartitionOf(counts, population, readState)
  {
    out := Partition(FindingState(population), Population(population), []);
    if population < 10 { return; }
    var cells := Positive(counts);
    if readState { cells := MergedStates(cells); } else { cells := MergeClasses(cells); }
    if |cells| <= 1 { return out.(state := Suppressed); }
    var keys := SortedKeys(cells);
    out := out.(cells := Listing(cells, keys));
  }
}
