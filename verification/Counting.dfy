/** How many entries of a list of flags are set. */
module Counting {

  function Tally(p: seq<bool>): nat
  {
    if p == [] then 0 else Tally(p[..|p| - 1]) + if p[|p| - 1] then 1 else 0
  }

  lemma TallyAppend(p: seq<bool>, q: seq<bool>, flag: bool)
    requires q == p + [flag]
    ensures Tally(q) == Tally(p) + if flag then 1 else 0
  {
    assert q[..|p|] == p;
  }

  lemma {:induction false} TallyUpdate(p: seq<bool>, q: seq<bool>, i: nat)
    requires |p| == |q| && i < |p|
    requires forall j :: 0 <= j < |p| && j != i ==> p[j] == q[j]
    ensures Tally(q) - Tally(p) == (if q[i] then 1 else 0) - (if p[i] then 1 else 0)
  {
    var n := |p| - 1;
    if i < n {
      TallyUpdate(p[..n], q[..n], i);
    } else {
      assert p[..n] == q[..n];
    }
  }

  lemma {:induction false} TallyMonotone(p: seq<bool>, q: seq<bool>)
    requires |p| == |q| && forall j :: 0 <= j < |p| && p[j] ==> q[j]
    ensures Tally(p) <= Tally(q)
  {
    if p != [] { TallyMonotone(p[..|p| - 1], q[..|p| - 1]); }
  }

  lemma {:induction false} TallySome(p: seq<bool>, i: nat)
    requires i < |p| && p[i]
    ensures 0 < Tally(p)
  {
    if i < |p| - 1 { TallySome(p[..|p| - 1], i); }
  }

  lemma {:induction false} TallyNone(p: seq<bool>)
    requires forall j :: 0 <= j < |p| ==> !p[j]
    ensures Tally(p) == 0
  {
    if p != [] { TallyNone(p[..|p| - 1]); }
  }
}
