/** The ledger behind its locks. Many callers run at once; a caller writes, settles or completes only while it
    holds the lock of the order and file. That nobody else is then inside `WriteChunk` is proved here of the
    locks, so what is promised of every run of the ledger holds with the locks as they are. */
module TransferBarrier {
  import opened Transfer
  import opened TransferSafety
  import opened TransferRuns
  import opened TransferLocks

  /** `inside`: which caller is inside `WriteChunk` for a response. */
  datatype Joint = Joint(w: World, l: Locks, inside: map<int, nat>)

  /** The caller has the lock and is not inside `WriteChunk` already. */
  ghost predicate HasLock(j: Joint, c: nat, k: Key)
  {
    Holds(j.l, c, k) && Outside(j, c)
  }

  ghost predicate Outside(j: Joint, c: nat)
  {
    forall id :: id in j.inside ==> j.inside[id] != c
  }

  /** Callers come, take their lock, give it back and go; a lock is not given back from inside `WriteChunk`. */
  ghost predicate ByLocks(j: Joint, j': Joint)
  {
    && j' == j.(l := j'.l) && LockStep(j.l, j'.l)
    && forall c :: c in j.l.callers && !Outside(j, c) ==> c in j'.l.callers && j'.l.callers[c] == j.l.callers[c]
  }

  /** A step of the ledger. No guard says that no other response is inside `WriteChunk`. */
  ghost predicate ByLedger(j: Joint, j': Joint, a: Action)
  {
    match a
    case Begin(id, len, now) =>
      && Valid(j.w, id) && Enters(j.w, j'.w, id, len, now) && j'.l == j.l
      && exists c :: HasLock(j, c, j.w.db.requests[id].key) && j'.inside == j.inside[id := c]
    case Settle(id, crash, outcome) =>
      && Valid(j.w, id) && Closes(j.w, j'.w, id, crash, outcome) && j' == j.(w := j'.w)
      && exists c :: HasLock(j, c, j.w.db.requests[id].key)
    case FinishEmpty(g, now, offered) =>
      && Completes(j.w, j'.w, g, now, offered) && j' == j.(w := j'.w)
      && exists c :: HasLock(j, c, g.key)
    case Return(id) => Does(j.w, j'.w, a) && j' == Joint(j'.w, j.l, j.inside - {id})
    case Doubt(id) => Does(j.w, j'.w, a) && j' == Joint(j'.w, j.l, j.inside - {id})
    case Crash => Does(j.w, j'.w, a) && j' == Joint(j'.w, NoLocks, map[])
    case _ => Does(j.w, j'.w, a) && j' == j.(w := j'.w)
  }

  ghost predicate JointStep(j: Joint, j': Joint)
  {
    ByLocks(j, j') || exists a :: ByLedger(j, j', a)
  }

  // ------------------------------------------------------------------ what the locks give

  /** The response is inside `WriteChunk` with a caller that holds its lock. */
  ghost predicate Inside(j: Joint, id: int)
    requires Valid(j.w, id)
  {
    id in j.inside && Holds(j.l, j.inside[id], j.w.db.requests[id].key)
  }

  ghost predicate Barred(j: Joint)
  {
    && LocksOk(j.l) && Valid0(j.w)
    && forall id :: 0 <= id < |j.w.track| && j.w.track[id].phase.Writing? ==> Inside(j, id)
  }

  /** Whoever has the lock finds nobody inside `WriteChunk`. */
  lemma NobodyInside(j: Joint, c: nat, k: Key)
    requires Barred(j) && HasLock(j, c, k)
    ensures NoWriter(j.w, k)
  {
    forall id | 0 <= id < |j.w.track| && Inside(j, id) ensures j.w.db.requests[id].key != k {}
  }

  /** Only `Begin` makes a writer. */
  lemma WritersStay(w: World, w': World, a: Action, id: int)
    requires Valid0(w) && Does(w, w', a) && 0 <= id < |w'.track| && w'.track[id].phase.Writing?
    ensures Valid0(w')
    ensures (a.Begin? && a.id == id) || (id < |w.track| && w.track[id].phase.Writing? && w'.db.requests[id].key == w.db.requests[id].key)
    ensures (a.Return? || a.Doubt?) ==> a.id != id
    ensures !a.Crash?
  {}

  lemma LedgerStepIs(j: Joint, j': Joint, a: Action)
    requires Barred(j) && ByLedger(j, j', a)
    ensures Does(j.w, j'.w, a)
  {
    if a.Begin? || a.Settle? {
      var c :| HasLock(j, c, j.w.db.requests[a.id].key);
      NobodyInside(j, c, j.w.db.requests[a.id].key);
    } else if a.FinishEmpty? {
      var c :| HasLock(j, c, a.g.key);
      NobodyInside(j, c, a.g.key);
    }
  }

  lemma LedgerStepKeeps(j: Joint, j': Joint, a: Action)
    requires Barred(j) && ByLedger(j, j', a)
    ensures Barred(j')
  {
    LedgerStepIs(j, j', a);
    RowsPaired(j.w, j'.w, a);
    assert LocksOk(NoLocks);
    forall id | 0 <= id < |j'.w.track| && j'.w.track[id].phase.Writing? ensures Inside(j', id) {
      WritersStay(j.w, j'.w, a, id);
      StaysInside(j, j', a, id);
    }
  }

  lemma StaysInside(j: Joint, j': Joint, a: Action, id: int)
    requires Barred(j) && ByLedger(j, j', a) && Does(j.w, j'.w, a) && Valid(j'.w, id) && !a.Crash?
    requires (a.Return? || a.Doubt?) ==> a.id != id
    requires (a.Begin? && a.id == id)
      || (id < |j.w.track| && j.w.track[id].phase.Writing? && j'.w.db.requests[id].key == j.w.db.requests[id].key)
    ensures Inside(j', id)
  {
    if !(a.Begin? && a.id == id) { assert Inside(j, id); }
  }

  lemma RowsPaired(w: World, w': World, a: Action)
    requires Valid0(w) && Does(w, w', a)
    ensures Valid0(w')
  {}

  lemma LockStepBars(j: Joint, j': Joint)
    requires Barred(j) && ByLocks(j, j')
    ensures Barred(j') && Does(j.w, j'.w, Rollback)
  {
    LockStepKeeps(j.l, j'.l);
    forall id | 0 <= id < |j'.w.track| && j'.w.track[id].phase.Writing? ensures Inside(j', id) {
      assert Inside(j, id);
      assert !Outside(j, j.inside[id]);
    }
  }

  /** Every step behind the locks is a step of the ledger's state machine. */
  lemma JointStepIs(j: Joint, j': Joint)
    requires Barred(j) && JointStep(j, j')
    ensures Barred(j') && Step(j.w, j'.w)
  {
    if ByLocks(j, j') {
      LockStepBars(j, j');
    } else {
      var a :| ByLedger(j, j', a);
      LedgerStepIs(j, j', a);
      LedgerStepKeeps(j, j', a);
    }
  }

  // ------------------------------------------------------------------ runs

  ghost predicate IsJointRun(run: seq<Joint>)
  {
    && run != [] && Initial(run[0].w) && run[0].l == NoLocks && run[0].inside == map[]
    && forall i :: 0 <= i < |run| - 1 ==> JointFollows(run, i)
  }

  ghost predicate JointFollows(run: seq<Joint>, i: int)
    requires 0 <= i < |run| - 1
  {
    JointStep(run[i], run[i + 1])
  }

  lemma {:induction false} RunBars(run: seq<Joint>, i: nat)
    requires IsJointRun(run) && i < |run|
    ensures Barred(run[i])
  {
    if i > 0 {
      RunBars(run, i - 1);
      assert JointFollows(run, i - 1);
      JointStepIs(run[i - 1], run[i]);
    } else {
      assert LocksOk(NoLocks);
    }
  }

  function Worlds(run: seq<Joint>): (r: seq<World>)
    ensures |r| == |run| && forall i :: 0 <= i < |r| ==> r[i] == run[i].w
  {
    seq(|run|, i requires 0 <= i < |run| => run[i].w)
  }

  /** Behind its locks the ledger only makes runs of the state machine, whatever callers come and however they
      interleave: every promise about those runs holds of it. */
  lemma RunsAreRuns(run: seq<Joint>)
    requires IsJointRun(run)
    ensures IsRun(Worlds(run)) && Initial(Worlds(run)[0])
  {
    forall i | 0 <= i < |run| - 1 ensures Follows(Worlds(run), i) {
      RunBars(run, i);
      assert JointFollows(run, i);
      JointStepIs(run[i], run[i + 1]);
    }
  }

  /** At any time, two responses of one order and file are never inside `WriteChunk` together, and a caller that has
      the lock finds none there. */
  lemma LockedOut(run: seq<Joint>, i: nat, k: Key, c: nat)
    requires IsJointRun(run) && i < |run|
    ensures Valid0(run[i].w) && OneWriter(run[i].w)
    ensures HasLock(run[i], c, k) ==> NoWriter(run[i].w, k)
  {
    RunBars(run, i);
    RunsAreRuns(run);
    RunHolds(Worlds(run), i);
    if HasLock(run[i], c, k) { NobodyInside(run[i], c, k); }
  }
}
