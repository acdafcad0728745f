/** Counts by class: their sum, the order of class names, and the smallest cell. */
module Cells {
  import opened Naming

  type Cells = map<string, int>

  ghost function Pick(m: Cells): (k: string)
    requires m != map[]
    ensures k in m
  {
    assert m.Keys != {};
    var k :| k in m;
    k
  }

  ghost function Sum(m: Cells): int
    decreases |m|
  {
    if m == map[] then 0 else m[Pick(m)] + Sum(m - {Pick(m)})
  }

  /** The sum may be taken in any order. */
  lemma {:induction false} SumRemove(m: Cells, k: string)
    requires k in m
    ensures Sum(m) == m[k] + Sum(m - {k})
    decreases |m|
  {
    var p := Pick(m);
    if p != k {
      SumRemove(m - {p}, k);
      SumRemove(m - {k}, p);
      assert m - {p} - {k} == m - {k} - {p};
    }
  }

  lemma SumPut(m: Cells, k: string, v: int)
    ensures Sum(m[k := v]) == Sum(m - {k}) + v
  {
    SumRemove(m[k := v], k);
    assert m[k := v] - {k} == m - {k};
  }

  lemma SumDrop(m: Cells, k: string)
    ensures Sum(m - {k}) == Sum(m) - if k in m then m[k] else 0
  {
    if k in m { SumRemove(m, k); } else { assert m - {k} == m; }
  }

  // ------------------------------------------------------------------ the smallest

  /** The cell of `k` comes before that of `l`: fewer members, or as many and the lesser name. */
  predicate Before(m: Cells, k: string, l: string)
    requires k in m && l in m
  {
    m[k] < m[l] || (m[k] == m[l] && AtMost(k, l))
  }

  ghost predicate IsSmallest(m: Cells, k: string)
  {
    k in m && forall l :: l in m ==> Before(m, k, l)
  }

  lemma SmallestIsOne(m: Cells, k: string, l: string)
    requires IsSmallest(m, k) && IsSmallest(m, l)
    ensures k == l
  {
    assert Before(m, k, l) && Before(m, l, k);
    NameOrder(k, l, k);
  }

  /** Looks at the cells in any order. */
  method FindSmallest(cells: Cells) returns (key: string)
    requires cells != map[] && "" !in cells
    ensures IsSmallest(cells, key)
  {
    key := "";
    var rest := cells.Keys;
    while rest != {}
      invariant rest <= cells.Keys
      invariant key == "" ==> rest == cells.Keys
      invariant key != "" ==> key in cells && forall l :: l in cells && l !in rest ==> Before(cells, key, l)
      decreases |rest|
    {
      var k :| k in rest;
      rest := rest - {k};
      NameOrder(k, k, k);
      if key == "" {
        key := k;
      } else {
        NameOrder(k, key, k);
        if cells[k] < cells[key] || (cells[k] == cells[key] && k != key && AtMost(k, key)) {
          forall l | l in cells && l !in rest ensures Before(cells, k, l) {
            if l != k { assert Before(cells, key, l); NameOrder(k, key, l); }
          }
          key := k;
        }
      }
    }
    assert key == "" ==> exists k :: k in cells.Keys by { var k := Pick(cells); }
  }

  // ------------------------------------------------------------------ sorting names

  /** The names of the cells, in order. */
  method SortedKeys(cells: Cells) returns (keys: seq<string>)
    ensures keys == Names(cells)
  {
    keys := [];
    var rest := cells.Keys;
    while rest != {}
      invariant rest <= cells.Keys && Sorted(keys) && forall k :: k in keys <==> k in cells && k !in rest
      decreases |rest|
    {
      var k :| k in rest;
      rest := rest - {k};
      keys := InsertName(keys, k);
    }
    SortedIsOne(keys, Names(cells));
  }

  ghost function Names(cells: Cells): (keys: seq<string>)
    ensures Sorted(keys) && forall k :: k in keys <==> k in cells
    ensures forall i :: 0 <= i < |keys| ==> keys[i] in cells
  {
    InOrder(cells.Keys)
  }
}
