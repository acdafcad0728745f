/** Votes of token shingles on the bits of a similarity hash: counted one by one, or in batches. */
module Shingles {
  type Counts = map<int, int>

  const BITS := 64

  function Pow2(i: nat): nat
  {
    if i == 0 then 1 else 2 * Pow2(i - 1)
  }

  /** A shingle votes for the bits it has and against the others. */
  function Sign(v: int, i: nat): int
  {
    Positive(i);
    if v / Pow2(i) % 2 == 1 then 1 else -1
  }

  lemma Positive(i: nat)
    ensures Pow2(i) > 0
  {}

  /** The votes on bit `i`, one shingle at a time. */
  function Votes(shingles: seq<int>, i: nat): int
  {
    if shingles == [] then 0 else Votes(shingles[..|shingles| - 1], i) + Sign(shingles[|shingles| - 1], i)
  }

  lemma Inhabited(m: Counts)
    ensures m == map[] || exists k :: k in m
  {
    if forall k :: k !in m { assert m == map[]; }
  }

  ghost function Pick(m: Counts): (k: int)
    requires m != map[]
    ensures k in m
  {
    Inhabited(m);
    var k :| k in m;
    k
  }

  /** The votes on bit `i` of shingles counted in a map. */
  ghost function Batch(m: Counts, i: nat): int
    decreases |m|
  {
    if m == map[] then 0
    else
      var k := Pick(m);
      Sign(k, i) * m[k] + Batch(m - {k}, i)
  }

  lemma {:induction false} BatchRemove(m: Counts, k: int, i: nat)
    requires k in m
    ensures Batch(m, i) == Sign(k, i) * m[k] + Batch(m - {k}, i)
    decreases |m|
  {
    var p := Pick(m);
    if p != k {
      BatchRemove(m - {p}, k, i);
      BatchRemove(m - {k}, p, i);
      assert m - {p} - {k} == m - {k} - {p};
    }
  }

  function Bumped(m: Counts, v: int): Counts
  {
    m[v := (if v in m then m[v] else 0) + 1]
  }

  /** Counting one more shingle in the map is one more vote. */
  lemma BatchBump(m: Counts, v: int, i: nat)
    ensures Batch(Bumped(m, v), i) == Batch(m, i) + Sign(v, i)
  {
    BatchRemove(Bumped(m, v), v, i);
    assert Bumped(m, v) - {v} == m - {v};
    if v in m { BatchRemove(m, v, i); } else { assert m - {v} == m; }
  }

  /** Votes so far and those in the map come to the votes of all shingles. */
  ghost predicate Tallied(votes: seq<int>, counts: Counts, shingles: seq<int>)
  {
    |votes| == BITS && forall i: nat :: i < BITS ==> TalliedAt(votes, counts, shingles, i)
  }

  ghost predicate TalliedAt(votes: seq<int>, counts: Counts, shingles: seq<int>, i: nat)
    requires i < |votes|
  {
    votes[i] + Batch(counts, i) == Votes(shingles, i)
  }

  lemma TallyOne(votes: seq<int>, counts: Counts, shingles: seq<int>, v: int)
    requires Tallied(votes, counts, shingles)
    ensures Tallied(votes, Bumped(counts, v), shingles + [v])
  {
    assert (shingles + [v])[..|shingles|] == shingles;
    forall i: nat | i < BITS ensures TalliedAt(votes, Bumped(counts, v), shingles + [v], i) {
      assert TalliedAt(votes, counts, shingles, i);
      BatchBump(counts, v, i);
    }
  }

  /** Adds the counted shingles to the votes, in any order. */
  method Flush(votes0: seq<int>, counts: Counts, ghost shingles: seq<int>) returns (votes: seq<int>)
    requires Tallied(votes0, counts, shingles)
    ensures Tallied(votes, map[], shingles)
  {
    votes := votes0;
    var rest := counts;
    while rest != map[]
      invariant Tallied(votes, rest, shingles)
      decreases |rest|
    {
      Inhabited(rest);
      var v :| v in rest;
      var n := rest[v];
      ghost var was := votes;
      var i := 0;
      while i < BITS
        invariant 0 <= i <= BITS && |votes| == BITS
        invariant forall j: nat :: j < i ==> votes[j] == was[j] + Sign(v, j) * n
        invariant forall j: nat :: i <= j < BITS ==> votes[j] == was[j]
      {
        votes := votes[i := votes[i] + if Sign(v, i) == 1 then n else -n];
        i := i + 1;
      }
      forall j: nat | j < BITS ensures TalliedAt(votes, rest - {v}, shingles, j) {
        assert TalliedAt(was, rest, shingles, j);
        BatchRemove(rest, v, j);
      }
      rest := rest - {v};
    }
  }
}
