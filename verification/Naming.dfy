/** The order of names, and a set of names as the one list in that order. */
module Naming {
  /** Names are compared character by character. */
  predicate AtMost(a: string, b: string)
  {
    a == [] || (b != [] && (a[0] < b[0] || (a[0] == b[0] && AtMost(a[1..], b[1..]))))
  }

  lemma {:induction false} NameOrder(a: string, b: string, c: string)
    ensures AtMost(a, b) || AtMost(b, a)
    ensures AtMost(a, b) && AtMost(b, a) ==> a == b
    ensures AtMost(a, b) && AtMost(b, c) ==> AtMost(a, c)
  {
    if a != [] && b != [] {
      if c != [] { NameOrder(a[1..], b[1..], c[1..]); } else { NameOrder(a[1..], b[1..], []); }
      if a[0] == b[0] && a[1..] == b[1..] { assert a == [a[0]] + a[1..] == b; }
    }
  }

  predicate Sorted(keys: seq<string>)
  {
    forall i, j :: 0 <= i < j < |keys| ==> AtMost(keys[i], keys[j]) && keys[i] != keys[j]
  }

  function InsertName(keys: seq<string>, k: string): (r: seq<string>)
    requires Sorted(keys) && k !in keys
    ensures Sorted(r) && forall l :: l in r <==> l == k || l in keys
  {
    if keys == [] then [k]
    else
      HeadIsLeast(keys, k);
      if AtMost(k, keys[0]) then [k] + keys
      else
        var rest := InsertName(keys[1..], k);
        assert keys == [keys[0]] + keys[1..];
        [keys[0]] + rest
  }

  lemma HeadIsLeast(keys: seq<string>, k: string)
    requires Sorted(keys) && k !in keys && keys != []
    ensures forall l :: l in keys ==> AtMost(keys[0], l) && (AtMost(k, keys[0]) ==> AtMost(k, l))
    ensures AtMost(k, keys[0]) || AtMost(keys[0], k)
    ensures keys[0] !in keys[1..] && Sorted(keys[1..])
  {
    NameOrder(k, keys[0], k);
    forall l | l in keys ensures AtMost(keys[0], l) && (AtMost(k, keys[0]) ==> AtMost(k, l)) {
      NameOrder(keys[0], keys[0], l);
      NameOrder(k, keys[0], l);
    }
  }

  /** There is only one such list. */
  lemma {:induction false} SortedIsOne(a: seq<string>, b: seq<string>)
    requires Sorted(a) && Sorted(b) && forall k :: k in a <==> k in b
    ensures a == b
  {
    assert forall i :: 0 <= i < |a| ==> a[i] in b;
    assert forall i :: 0 <= i < |b| ==> b[i] in a;
    if a != [] && b != [] {
      NameOrder(a[0], b[0], a[0]);
      assert a[0] == b[0];
      forall k ensures k in a[1..] <==> k in b[1..] {
        assert k in a[1..] <==> k in a && k != a[0];
        assert k in b[1..] <==> k in b && k != b[0];
      }
      SortedIsOne(a[1..], b[1..]);
      assert a == [a[0]] + a[1..] && b == [b[0]] + b[1..];
    }
  }

  ghost function InOrder(names: set<string>): (keys: seq<string>)
    ensures Sorted(keys) && forall k :: k in keys <==> k in names
    ensures forall i :: 0 <= i < |keys| ==> keys[i] in names
    decreases |names|
  {
    if names == {} then []
    else
      var k :| k in names;
      InsertName(InOrder(names - {k}), k)
  }
}
