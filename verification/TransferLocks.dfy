/** The table of order/file locks: an entry lives while any caller holds or waits for it. */
module TransferLocks {
  import opened Transfer

  datatype Stage = Waiting | Holding | Leaving

  /** A caller that took its place at lock object `lock` for `key`. */
  datatype Caller = Caller(key: Key, lock: nat, stage: Stage)

  /** `table`: the lock object of each key.  `refs`: its callers.  `held`: who has locked it. */
  datatype Locks = Locks(table: map<Key, nat>, refs: map<nat, nat>, held: map<nat, nat>,
                         callers: map<nat, Caller>, next: nat)

  ghost function Users(l: Locks, lock: nat): set<nat>
  {
    set c | c in l.callers && l.callers[c].lock == lock
  }

  ghost predicate Arrive(l: Locks, l': Locks, c: nat, k: Key)
  {
    && c !in l.callers
    && if k in l.table then
         l.table[k] in l.refs
         && l' == l.(refs := l.refs[l.table[k] := l.refs[l.table[k]] + 1],
                     callers := l.callers[c := Caller(k, l.table[k], Waiting)])
       else
         l' == l.(table := l.table[k := l.next], refs := l.refs[l.next := 1],
                  callers := l.callers[c := Caller(k, l.next, Waiting)], next := l.next + 1)
  }

  ghost predicate Acquire(l: Locks, l': Locks, c: nat)
  {
    && c in l.callers && l.callers[c].stage == Waiting && l.callers[c].lock !in l.held
    && l' == l.(held := l.held[l.callers[c].lock := c], callers := l.callers[c := l.callers[c].(stage := Holding)])
  }

  ghost predicate Unlock(l: Locks, l': Locks, c: nat)
  {
    && c in l.callers && l.callers[c].stage == Holding
    && l' == l.(held := l.held - {l.callers[c].lock}, callers := l.callers[c := l.callers[c].(stage := Leaving)])
  }

  /** The last caller out deletes the entry. */
  ghost predicate Depart(l: Locks, l': Locks, c: nat)
  {
    && c in l.callers && l.callers[c].stage == Leaving
    && var b, k := l.callers[c].lock, l.callers[c].key;
       && b in l.refs && 0 < l.refs[b]
       && l' == l.(refs := l.refs[b := l.refs[b] - 1], callers := l.callers - {c},
                   table := if l.refs[b] == 1 then l.table - {k} else l.table)
  }

  ghost predicate LockStep(l: Locks, l': Locks)
  {
    || (exists c, k :: Arrive(l, l', c, k))
    || (exists c :: Acquire(l, l', c) || Unlock(l, l', c) || Depart(l, l', c))
  }

  const NoLocks := Locks(map[], map[], map[], map[], 0)

  /** Every caller is at the object its key names; different keys have different objects. */
  ghost predicate Placed(l: Locks)
  {
    && (forall c :: c in l.callers ==> l.callers[c].key in l.table && l.table[l.callers[c].key] == l.callers[c].lock)
    && (forall k :: k in l.table ==> l.table[k] < l.next)
    && (forall j, k :: j in l.table && k in l.table && l.table[j] == l.table[k] ==> j == k)
  }

  /** A lock object knows how many callers it has, at least one. */
  ghost predicate CountedAt(l: Locks, b: nat)
  {
    b in l.refs && 0 < l.refs[b] && l.refs[b] == |Users(l, b)|
  }

  ghost predicate Counted(l: Locks)
  {
    forall k :: k in l.table ==> CountedAt(l, l.table[k])
  }

  /** An object is locked exactly by the caller that holds it. */
  ghost predicate Owned(l: Locks)
  {
    && (forall c :: c in l.callers && l.callers[c].stage == Holding ==>
          l.callers[c].lock in l.held && l.held[l.callers[c].lock] == c)
    && (forall b :: b in l.held ==>
          l.held[b] in l.callers && l.callers[l.held[b]].stage == Holding && l.callers[l.held[b]].lock == b)
  }

  ghost predicate LocksOk(l: Locks)
  {
    Placed(l) && Counted(l) && Owned(l)
  }

  lemma ArrivePlaces(l: Locks, l': Locks, c: nat, k: Key)
    requires Placed(l) && Arrive(l, l', c, k)
    ensures Placed(l')
  {
  }

  lemma ArriveCounts(l: Locks, l': Locks, c: nat, k: Key)
    requires Placed(l) && Counted(l) && Arrive(l, l', c, k)
    ensures Counted(l')
  {
    forall j | j in l'.table ensures CountedAt(l', l'.table[j]) { ArriveCountsAt(l, l', c, k, j); }
  }

  lemma ArriveUsers(l: Locks, l': Locks, c: nat, at: nat, b: nat)
    requires c !in l.callers && c in l'.callers && l'.callers == l.callers[c := l'.callers[c]]
    requires l'.callers[c].lock == at
    ensures Users(l', b) == Users(l, b) + if b == at then {c} else {}
    ensures |Users(l', b)| == |Users(l, b)| + if b == at then 1 else 0
  {
    assert Users(l', b) == Users(l, b) + if b == at then {c} else {};
    assert c !in Users(l, b);
  }

  lemma ArriveCountsAt(l: Locks, l': Locks, c: nat, k: Key, j: Key)
    requires Placed(l) && Counted(l) && Arrive(l, l', c, k) && j in l'.table
    ensures CountedAt(l', l'.table[j])
  {
    ArriveUsers(l, l', c, l'.callers[c].lock, l'.table[j]);
    if k !in l.table && j == k { NewLock(l); } else { assert CountedAt(l, l.table[j]); }
  }

  /** A new lock object has no users. */
  lemma NewLock(l: Locks)
    requires Placed(l)
    ensures Users(l, l.next) == {}
  {
    forall d | d in l.callers ensures l.callers[d].lock < l.next { assert l.callers[d].key in l.table; }
  }

  lemma ArriveOwns(l: Locks, l': Locks, c: nat, k: Key)
    requires Owned(l) && Arrive(l, l', c, k)
    ensures Owned(l')
  {
  }

  ghost predicate Moves(l: Locks, l': Locks, c: nat) { Acquire(l, l', c) || Unlock(l, l', c) }

  lemma MovePlaces(l: Locks, l': Locks, c: nat)
    requires Placed(l) && Moves(l, l', c)
    ensures Placed(l')
  {
  }

  lemma MoveCounts(l: Locks, l': Locks, c: nat)
    requires Counted(l) && Moves(l, l', c)
    ensures Counted(l')
  {
    forall j | j in l'.table ensures CountedAt(l', l'.table[j]) {
      assert CountedAt(l, l.table[j]);
      assert Users(l', l'.table[j]) == Users(l, l'.table[j]);
    }
  }

  lemma MoveOwns(l: Locks, l': Locks, c: nat)
    requires Owned(l) && Moves(l, l', c)
    ensures Owned(l')
  {
  }

  /** When the count says one, no other caller is at the object. */
  lemma Alone(l: Locks, c: nat, d: nat)
    requires Placed(l) && Counted(l) && c in l.callers && d in l.callers
    requires l.callers[c].lock == l.callers[d].lock && l.refs[l.callers[c].lock] == 1
    ensures c == d
  {
    var users := Users(l, l.callers[c].lock);
    assert users == {c} + (users - {c});
    assert d in users && |users - {c}| == 0;
    assert d !in users - {c};
  }

  lemma DepartPlaces(l: Locks, l': Locks, c: nat)
    requires Placed(l) && Counted(l) && Depart(l, l', c)
    ensures Placed(l')
  {
    var b, k := l.callers[c].lock, l.callers[c].key;
    forall d | d in l'.callers
      ensures l'.callers[d].key in l'.table && l'.table[l'.callers[d].key] == l'.callers[d].lock
    {
      if l.refs[b] == 1 && l.callers[d].key == k { Alone(l, c, d); }
    }
  }

  lemma DepartCounts(l: Locks, l': Locks, c: nat)
    requires Placed(l) && Counted(l) && Depart(l, l', c)
    ensures Counted(l')
  {
    forall j | j in l'.table ensures CountedAt(l', l'.table[j]) { DepartCountsAt(l, l', c, j); }
  }

  lemma DepartCountsAt(l: Locks, l': Locks, c: nat, j: Key)
    requires Placed(l) && Counted(l) && Depart(l, l', c) && j in l'.table
    ensures CountedAt(l', l'.table[j])
  {
    var b := l.table[j];
    assert CountedAt(l, b);
    assert Users(l', b) == Users(l, b) - {c};
    if j == l.callers[c].key { assert c in Users(l, b); }
  }

  lemma DepartOwns(l: Locks, l': Locks, c: nat)
    requires Owned(l) && Depart(l, l', c)
    ensures Owned(l')
  {
  }

  lemma LockStepKeeps(l: Locks, l': Locks)
    requires LocksOk(l) && LockStep(l, l')
    ensures LocksOk(l')
  {
    if c, k :| Arrive(l, l', c, k) {
      ArrivePlaces(l, l', c, k);
      ArriveCounts(l, l', c, k);
      ArriveOwns(l, l', c, k);
    } else {
      var c :| Acquire(l, l', c) || Unlock(l, l', c) || Depart(l, l', c);
      if Depart(l, l', c) {
        DepartPlaces(l, l', c);
        DepartCounts(l, l', c);
        DepartOwns(l, l', c);
      } else {
        MovePlaces(l, l', c);
        MoveCounts(l, l', c);
        MoveOwns(l, l', c);
      }
    }
  }

  /** Over any run of arrivals, locks and departures the table stays sound. */
  lemma {:induction false} LocksStayOk(run: seq<Locks>, i: nat)
    requires run != [] && run[0] == NoLocks && i < |run|
    requires forall j :: 0 <= j < |run| - 1 ==> LockStep(run[j], run[j + 1])
    ensures LocksOk(run[i])
  {
    if i > 0 {
      LocksStayOk(run, i - 1);
      assert LockStep(run[i - 1], run[i - 1 + 1]);
      LockStepKeeps(run[i - 1], run[i]);
    }
  }

  ghost predicate Holds(l: Locks, c: nat, k: Key)
  {
    c in l.callers && l.callers[c].stage == Holding && l.callers[c].key == k
  }

  /** Two callers never hold the lock of one order and file together, and no entry is left behind
      once nobody holds or waits. */
  lemma OneHolder(run: seq<Locks>, i: nat, k: Key, c: nat, d: nat)
    requires run != [] && run[0] == NoLocks && i < |run|
    requires forall j :: 0 <= j < |run| - 1 ==> LockStep(run[j], run[j + 1])
    ensures Holds(run[i], c, k) && Holds(run[i], d, k) ==> c == d
    ensures run[i].callers == map[] ==> run[i].table == map[]
  {
    LocksStayOk(run, i);
    var l := run[i];
    if l.callers == map[] {
      forall b ensures Users(l, b) == {} {}
    }
  }

  /** Every run of the table, whoever called. */
  ghost predicate IsLockRun(run: seq<Locks>)
  {
    run != [] && run[0] == NoLocks && forall j :: 0 <= j < |run| - 1 ==> LockStep(run[j], run[j + 1])
  }

  /** The table as the ledger keeps it.  A lock object is its number, in order of creation; callers
      arrive, wait, hold and leave in any order. */
  class LockTable {
    var table: map<Key, nat>
    var refs: map<nat, nat>
    var held: map<nat, nat>
    var callers: map<nat, Caller>
    var next: nat
    ghost var history: seq<Locks>

    ghost function View(): Locks
      reads this
    {
      Locks(table, refs, held, callers, next)
    }

    ghost predicate Lawful()
      reads this
    {
      IsLockRun(history) && history[|history| - 1] == View()
    }

    constructor ()
      ensures Lawful() && View() == NoLocks
    {
      table, refs, held, callers, next, history := map[], map[], map[], map[], 0, [NoLocks];
    }

    ghost method Took()
      requires IsLockRun(history) && LockStep(history[|history| - 1], View())
      modifies this`history
      ensures Lawful() && history == old(history) + [View()]
    {
      history := history + [View()];
    }

    /** What every caller may rely on. */
    lemma Facts()
      requires Lawful()
      ensures LocksOk(View())
    {
      LocksStayOk(history, |history| - 1);
    }

    /** A caller joins those that hold or wait for the lock of `k`. */
    method Take(c: nat, k: Key)
      requires Lawful() && c !in callers
      modifies this
      ensures Lawful() && Arrive(old(View()), View(), c, k)
      ensures c in callers && callers[c].stage == Waiting && callers[c].key == k
    {
      Facts();
      var b := next;
      if k in table {
        b := table[k];
        assert CountedAt(View(), b);
        refs := refs[b := refs[b] + 1];
      } else {
        table, refs, next := table[k := b], refs[b := 1], next + 1;
      }
      callers := callers[c := Caller(k, b, Waiting)];
      assert Arrive(history[|history| - 1], View(), c, k);
      Took();
    }

    /** A waiting caller gets its lock exactly when no one holds it. */
    method TryLock(c: nat) returns (ok: bool)
      requires Lawful() && c in callers && callers[c].stage == Waiting
      modifies this
      ensures Lawful() && ok == forall d :: !Holds(old(View()), d, old(callers)[c].key)
      ensures if ok then Acquire(old(View()), View(), c) else View() == old(View())
    {
      Facts();
      var b := callers[c].lock;
      ok := b !in held;
      if ok {
        held, callers := held[b := c], callers[c := callers[c].(stage := Holding)];
        assert Acquire(history[|history| - 1], View(), c);
        Took();
      } else {
        assert Holds(View(), held[b], callers[c].key);
      }
    }

    /** The first half of a release: the object is unlocked. */
    method Free(c: nat)
      requires Lawful() && c in callers && callers[c].stage == Holding
      modifies this
      ensures Lawful() && Unlock(old(View()), View(), c)
    {
      Facts();
      held, callers := held - {callers[c].lock}, callers[c := callers[c].(stage := Leaving)];
      assert Unlock(history[|history| - 1], View(), c);
      Took();
    }

    /** The second half, under the table's own lock: the caller is gone, and with the last one of its
        key the entry. */
    method Leave(c: nat)
      requires Lawful() && c in callers && callers[c].stage == Leaving
      modifies this
      ensures Lawful() && callers == old(callers) - {c} && held == old(held)
      ensures old(callers)[c].key in table <==> exists d :: d in callers && callers[d].key == old(callers)[c].key
      ensures table - {old(callers)[c].key} == old(table) - {old(callers)[c].key}
    {
      var b, k := callers[c].lock, callers[c].key;
      Facts();
      assert View().callers[c].key == k && CountedAt(View(), table[k]);
      refs := refs[b := refs[b] - 1];
      if refs[b] == 0 { table := table - {k}; }
      callers := callers - {c};
      assert Depart(history[|history| - 1], View(), c);
      Took();
      EntryLives(k);
    }

    /** An entry exists exactly while some caller holds or waits for it. */
    lemma EntryLives(k: Key)
      requires Lawful()
      ensures k in table <==> exists d :: d in callers && callers[d].key == k
    {
      Facts();
      if k in table {
        assert CountedAt(View(), table[k]);
        assert Users(View(), table[k]) != {};
        var d :| d in Users(View(), table[k]);
        assert callers[d].key == k;
      }
    }
  }
}
