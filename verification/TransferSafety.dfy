/** What every run of the transfer ledger keeps. */
module TransferSafety {
  import opened Segments
  import opened Coverage
  import opened Counting
  import opened Transfer

  // ------------------------------------------------------------------ the invariant

  /** One response: it wrote no further than it is charged for, and at most one window past its
      last checkpoint. */
  ghost predicate RowOk(w: World, i: int)
    requires Valid(w, i)
  {
    var r, t := w.db.requests[i], w.track[i];
    && r.key.fid in w.db.files && 0 <= r.start <= r.end < w.db.files[r.key.fid].size
    && r.jti in w.db.permissions && w.db.permissions[r.jti].key == r.key
    && r.start - 1 <= r.written <= t.sent <= t.charged <= r.end
    && t.sent <= r.written + WINDOW
    && (if r.open then t.charged == r.end else t.charged <= r.written + WINDOW)
    && (t.phase.Idle? ==> t.sent == r.written)
    && (t.phase.Writing? ==> w.up && r.open && t.sent <= t.phase.upto <= r.end)
    && (r.start == 0 ==> !r.isolated)
  }

  /** What a response checkpointed is transmitted, and so is the byte it was attached to. */
  ghost predicate RowRecorded(w: World, i: int)
    requires Valid(w, i)
  {
    var r := w.db.requests[i];
    var tr := Rows(w.db.transmitted, r.key);
    && Holds(tr, r.start, r.written)
    && (r.start > 0 && !r.isolated ==> 0 < Count(tr, r.start - 1))
  }

  ghost predicate AllRows(w: World)
  {
    && Valid0(w)
    && (forall i {:trigger w.track[i]} :: 0 <= i < |w.track| ==> RowOk(w, i) && RowRecorded(w, i))
    && (forall f :: f in w.db.files ==> 0 <= w.db.files[f].size)
  }

  /** One writer at a time for each order and file. */
  ghost predicate OneWriter(w: World)
    requires Valid0(w)
  {
    forall i, j :: 0 <= i < j < |w.track| && w.db.requests[i].key == w.db.requests[j].key
      ==> !(w.track[i].phase.Writing? && w.track[j].phase.Writing?)
  }

  ghost function ChargeFlags(w: World, k: Key, x: int): seq<bool>
    requires Valid0(w)
  {
    seq(|w.track|, i requires 0 <= i < |w.track| =>
      w.db.requests[i].key == k && w.db.requests[i].start <= x <= w.track[i].charged)
  }

  ghost function DeliveryFlags(w: World, k: Key, x: int): seq<bool>
    requires Valid0(w)
  {
    seq(|w.track|, i requires 0 <= i < |w.track| =>
      w.db.requests[i].key == k && w.db.requests[i].start <= x <= w.track[i].sent)
  }

  /** The serve count of a byte is the number of responses charged for it, at most two. */
  ghost predicate ServesExact(w: World, k: Key)
    requires Valid0(w)
  {
    var ss := Rows(w.db.serves, k);
    && Canonical(ss)
    && forall x :: Count(ss, x) == Tally(ChargeFlags(w, k, x)) && Count(ss, x) <= 2
  }

  /** A byte went out once for each response that got past it. */
  ghost predicate SentExact(w: World, k: Key)
    requires Valid0(w)
  {
    forall x :: TimesSent(w.net, k, x) == Tally(DeliveryFlags(w, k, x))
  }

  ghost predicate Wrote(w: World, k: Key, x: int, i: int)
    requires Valid0(w)
  {
    0 <= i < |w.track| && w.db.requests[i].key == k && w.db.requests[i].start <= x <= w.db.requests[i].written
  }

  /** A byte is recorded as transmitted only when some response checkpointed it. */
  ghost predicate RecordTrue(w: World, k: Key)
    requires Valid0(w)
  {
    var tr := Rows(w.db.transmitted, k);
    Unit(tr) && forall x :: 0 < Count(tr, x) ==> exists i :: Wrote(w, k, x, i)
  }

  ghost predicate Inv(w: World, k: Key)
  {
    && AllRows(w) && OneWriter(w)
    && ServesExact(w, k) && SentExact(w, k) && RecordTrue(w, k)
  }

  // ------------------------------------------------------------------ rows are kept

  lemma StepKeepsRows(w: World, w': World, a: Action)
    requires AllRows(w) && OneWriter(w) && Does(w, w', a)
    requires forall k :: Unit(Rows(w.db.transmitted, k))
    ensures AllRows(w') && OneWriter(w')
  {
    match a
    case Reserve(g, start, end, now, offered, v) =>
      if v.Admitted? { ReserveKeepsRows(w, w', g, start, end, now, offered, v); }
    case Begin(id, len, now) => PhaseKeepsRows(w, w', id, w'.track[id].phase);
    case Send(id, n) => SendKeepsRows(w, w', id, n);
    case Checkpoint(id) => CheckpointKeepsRows(w, w', id);
    case Return(id) => PhaseKeepsRows(w, w', id, Idle);
    case Doubt(id) => PhaseKeepsRows(w, w', id, Doubtful);
    case Settle(id, crash, outcome) => SettleKeepsRows(w, w', id, crash, outcome);
    case Crash => CrashKeepsRows(w, w');
    case _ => StoreKeepsRows(w, w');
  }

  /** Steps that touch permissions, completions and receipts, but no request. */
  lemma StoreKeepsRows(w: World, w': World)
    requires AllRows(w) && OneWriter(w)
    requires w'.track == w.track && (w.up ==> w'.up)
    requires w'.db.requests == w.db.requests && w'.db.transmitted == w.db.transmitted && w'.db.files == w.db.files
    requires forall j :: j in w.db.permissions ==>
      j in w'.db.permissions && w'.db.permissions[j].key == w.db.permissions[j].key
    ensures AllRows(w') && OneWriter(w')
  {
    forall i | 0 <= i < |w'.track| ensures RowOk(w', i) && RowRecorded(w', i) {
      assert w.track[i].sent == w'.track[i].sent && RowOk(w, i) && RowRecorded(w, i);
    }
  }

  lemma CrashKeepsRows(w: World, w': World)
    requires AllRows(w) && OneWriter(w) && CrashStep(w, w')
    ensures AllRows(w') && OneWriter(w')
  {
    forall i | 0 <= i < |w'.track| ensures RowOk(w', i) && RowRecorded(w', i) {
      assert w.track[i].sent == w'.track[i].sent && RowOk(w, i) && RowRecorded(w, i);
    }
  }

  lemma ReserveKeepsRows(w: World, w': World, g: Grant, start: int, end: int, now: int, offered: bool, v: Verdict)
    requires AllRows(w) && OneWriter(w) && v.Admitted? && ReserveStep(w, w', g, start, end, now, offered, v)
    requires Unit(Rows(w.db.transmitted, g.key))
    ensures AllRows(w') && OneWriter(w')
  {
    CountNonNegative(Rows(w.db.transmitted, g.key), start - 1);
    assert !GateFails(w.db, g, now, ErrClosed) && !GateFails(w.db, g, now, ErrDeadline) && !GateFails(w.db, g, now, ErrNoRow);
    forall i | 0 <= i < |w'.track| ensures RowOk(w', i) && RowRecorded(w', i) {
      if i < |w.track| { assert w.track[i] == w'.track[i] && RowOk(w, i) && RowRecorded(w, i); }
    }
  }

  lemma PhaseKeepsRows(w: World, w': World, id: int, p: Phase)
    requires AllRows(w) && OneWriter(w) && Valid(w, id)
    requires w' == w.(track := w.track[id := w.track[id].(phase := p)])
    requires var r := w.db.requests[id];
      && (p.Idle? ==> w.track[id].sent == r.written)
      && (p.Writing? ==> w.up && r.open && NoWriter(w, r.key) && w.track[id].sent <= p.upto <= r.end)
    ensures AllRows(w') && OneWriter(w')
  {
    forall i | 0 <= i < |w'.track| ensures RowOk(w', i) && RowRecorded(w', i) {
      assert w.track[i].sent == w'.track[i].sent && RowOk(w, i) && RowRecorded(w, i);
    }
  }

  lemma SendKeepsRows(w: World, w': World, id: int, n: int)
    requires AllRows(w) && OneWriter(w) && SendStep(w, w', id, n)
    ensures AllRows(w') && OneWriter(w')
  {
    forall i | 0 <= i < |w'.track| ensures RowOk(w', i) && RowRecorded(w', i) {
      assert w.track[i].charged == w'.track[i].charged && RowOk(w, i) && RowRecorded(w, i);
    }
  }

  lemma CheckpointKeepsRows(w: World, w': World, id: int)
    requires AllRows(w) && OneWriter(w) && CheckpointStep(w, w', id)
    ensures AllRows(w') && OneWriter(w')
  {
    forall i | 0 <= i < |w'.track| ensures RowOk(w', i) && RowRecorded(w', i) {
      assert w.track[i] == w'.track[i] && RowOk(w, i) && RowRecorded(w, i);
    }
  }

  lemma SettleKeepsRows(w: World, w': World, id: int, crash: bool, outcome: string)
    requires AllRows(w) && OneWriter(w) && SettleStep(w, w', id, crash, outcome)
    ensures AllRows(w') && OneWriter(w')
  {
    RowsSettled(w, w', id, crash);
  }

  lemma RowsSettled(w: World, w': World, id: int, crash: bool)
    requires AllRows(w) && OneWriter(w) && Valid(w, id) && NoWriter(w, w.db.requests[id].key)
    requires !crash ==> w.track[id].phase == Idle
    requires var r := w.db.requests[id];
      && w'.db.files == w.db.files && w'.db.transmitted == w.db.transmitted && w'.up == w.up
      && w'.db.requests == w.db.requests[id := r.(open := false)]
      && w'.track == if r.open then w.track[id := w.track[id].(charged := Keep(r, crash))] else w.track
    requires forall j :: j in w.db.permissions ==>
      j in w'.db.permissions && w'.db.permissions[j].key == w.db.permissions[j].key
    ensures AllRows(w') && OneWriter(w')
  {
    forall i | 0 <= i < |w'.track| ensures RowOk(w', i) && RowRecorded(w', i) {
      assert w.track[i].sent == w'.track[i].sent && RowOk(w, i) && RowRecorded(w, i);
    }
    forall i, j | 0 <= i < j < |w'.track| && w'.db.requests[i].key == w'.db.requests[j].key
      ensures !(w'.track[i].phase.Writing? && w'.track[j].phase.Writing?)
    {
      assert w.db.requests[i].key == w.db.requests[j].key;
    }
  }

  // ------------------------------------------------------------------ what a step leaves alone

  /** The rows stay, with their keys and starts; none forgets what it checkpointed. */
  ghost predicate SameRows(w: World, w': World)
  {
    && Valid0(w) && Valid0(w') && |w'.track| == |w.track|
    && forall i :: 0 <= i < |w.track| ==>
         && w'.db.requests[i].key == w.db.requests[i].key && w'.db.requests[i].start == w.db.requests[i].start
         && w.db.requests[i].written <= w'.db.requests[i].written
  }

  ghost predicate SameCharged(w: World, w': World)
    requires |w'.track| == |w.track|
  {
    forall i :: 0 <= i < |w.track| ==> w'.track[i].charged == w.track[i].charged
  }

  ghost predicate SameSent(w: World, w': World)
    requires |w'.track| == |w.track|
  {
    forall i :: 0 <= i < |w.track| ==> w'.track[i].sent == w.track[i].sent
  }

  predicate Admits(a: Action) { a.Reserve? && a.v.Admitted? }

  lemma StepFrame(w: World, w': World, a: Action)
    requires Valid0(w) && Does(w, w', a) && !Admits(a)
    ensures SameRows(w, w') && w'.db.files == w.db.files
    ensures !a.Settle? ==> w'.db.serves == w.db.serves && SameCharged(w, w')
    ensures !a.Send? ==> w'.net == w.net && SameSent(w, w')
    ensures !a.Checkpoint? ==> w'.db.transmitted == w.db.transmitted
  {
    match a
    case Reserve(g, start, end, now, offered, v) =>
    case Begin(id, len, now) =>
    case Send(id, n) =>
    case Checkpoint(id) =>
    case Return(id) =>
    case Doubt(id) =>
    case Settle(id, crash, outcome) =>
    case FinishEmpty(g, now, offered) =>
    case RevokeGrant(jti) =>
    case Expire(now) =>
    case Crash =>
    case Restart =>
    case Rollback =>
  }

  // ------------------------------------------------------------------ counts are kept

  /** One row changed its charge: the count of every byte moves with it. */
  lemma ChargeMoves(w: World, w': World, k: Key, x: int, id: int)
    requires Valid(w, id) && Valid(w', id) && |w'.track| == |w.track|
    requires forall i :: 0 <= i < |w.track| ==>
      w'.db.requests[i].key == w.db.requests[i].key && w'.db.requests[i].start == w.db.requests[i].start
    requires forall i :: 0 <= i < |w.track| && i != id ==> w'.track[i].charged == w.track[i].charged
    ensures Tally(ChargeFlags(w', k, x)) - Tally(ChargeFlags(w, k, x))
            == (if ChargeFlags(w', k, x)[id] then 1 else 0) - (if ChargeFlags(w, k, x)[id] then 1 else 0)
  {
    TallyUpdate(ChargeFlags(w, k, x), ChargeFlags(w', k, x), id);
  }

  /** An admission counts one more on each of its bytes, none of which was at two. */
  lemma ReserveCountsAt(w: World, w': World, k: Key, x: int, g: Grant, start: int, v: Verdict)
    requires Valid0(w) && v.Admitted? && Reserved(w.db, w'.db, g, start, v)
    requires w'.track == w.track + [Track(v.end, start - 1, Idle)]
    requires var n := Count(Rows(w.db.serves, k), x);
      n == Tally(ChargeFlags(w, k, x)) && n <= 2 && (g.key == k && start <= x <= v.end ==> n != 2)
    ensures Valid0(w') && Count(Rows(w'.db.serves, k), x) == Tally(ChargeFlags(w', k, x)) <= 2
  {
    TallyAppend(ChargeFlags(w, k, x), ChargeFlags(w', k, x), g.key == k && start <= x <= v.end);
  }

  lemma ReserveKeepsServes(w: World, w': World, k: Key, g: Grant, start: int, end: int, now: int, offered: bool, v: Verdict)
    requires AllRows(w) && ServesExact(w, k)
    requires v.Admitted? && ReserveStep(w, w', g, start, end, now, offered, v)
    ensures ServesExact(w', k)
  {
    assert Clipped(Rows(w.db.serves, g.key), start, end, v.end);
    forall x ensures Count(Rows(w'.db.serves, k), x) == Tally(ChargeFlags(w', k, x)) <= 2 {
      ReserveCountsAt(w, w', k, x, g, start, v);
    }
  }

  lemma SettleCountsAt(w: World, w': World, k: Key, x: int, id: int, crash: bool, outcome: string)
    requires Valid(w, id) && RowOk(w, id) && SettleStep(w, w', id, crash, outcome) && w.db.requests[id].open
    requires Count(Rows(w.db.serves, k), x) == Tally(ChargeFlags(w, k, x)) <= 2
    ensures Valid0(w') && Count(Rows(w'.db.serves, k), x) == Tally(ChargeFlags(w', k, x)) <= 2
  {
    var r := w.db.requests[id];
    ChargeMoves(w, w', k, x, id);
    if r.key == k && Keep(r, crash) < x <= r.end { TallySome(ChargeFlags(w, k, x), id); }
  }

  lemma SettleKeepsServes(w: World, w': World, k: Key, id: int, crash: bool, outcome: string)
    requires AllRows(w) && ServesExact(w, k) && SettleStep(w, w', id, crash, outcome)
    ensures ServesExact(w', k)
  {
    if w.db.requests[id].open {
      forall x ensures Count(Rows(w'.db.serves, k), x) == Tally(ChargeFlags(w', k, x)) <= 2 {
        SettleCountsAt(w, w', k, x, id, crash, outcome);
      }
    }
  }

  lemma ServesFrame(w: World, w': World, k: Key)
    requires SameRows(w, w') && SameCharged(w, w') && w'.db.serves == w.db.serves && ServesExact(w, k)
    ensures ServesExact(w', k)
  {
    forall x ensures Tally(ChargeFlags(w', k, x)) == Tally(ChargeFlags(w, k, x)) {
      assert ChargeFlags(w', k, x) == ChargeFlags(w, k, x);
    }
  }

  lemma StepKeepsServes(w: World, w': World, k: Key, a: Action)
    requires AllRows(w) && ServesExact(w, k) && Does(w, w', a)
    ensures Valid0(w') && ServesExact(w', k)
  {
    if Admits(a) {
      ReserveKeepsServes(w, w', k, a.g, a.start, a.end, a.now, a.offered, a.v);
    } else if a.Settle? {
      SettleKeepsServes(w, w', k, a.id, a.crash, a.outcome);
    } else {
      StepFrame(w, w', a);
      ServesFrame(w, w', k);
    }
  }

  // ------------------------------------------------------------------ network counts are kept

  lemma SendKeepsSent(w: World, w': World, k: Key, id: int, n: int)
    requires AllRows(w) && SentExact(w, k) && SendStep(w, w', id, n)
    ensures SentExact(w', k)
  {
    var r, t := w.db.requests[id], w.track[id];
    assert RowOk(w, id);
    forall x ensures TimesSent(w'.net, k, x) == Tally(DeliveryFlags(w', k, x)) {
      TallyAppend(SentFlags(w.net, k, x), SentFlags(w'.net, k, x), r.key == k && t.sent + 1 <= x <= t.sent + n);
      TallyUpdate(DeliveryFlags(w, k, x), DeliveryFlags(w', k, x), id);
    }
  }

  lemma SentFrame(w: World, w': World, k: Key)
    requires SameRows(w, w') && SameSent(w, w') && w'.net == w.net && SentExact(w, k)
    ensures SentExact(w', k)
  {
    forall x ensures Tally(DeliveryFlags(w', k, x)) == Tally(DeliveryFlags(w, k, x)) {
      assert DeliveryFlags(w', k, x) == DeliveryFlags(w, k, x);
    }
  }

  lemma StepKeepsSent(w: World, w': World, k: Key, a: Action)
    requires AllRows(w) && SentExact(w, k) && Does(w, w', a)
    ensures Valid0(w') && SentExact(w', k)
  {
    if Admits(a) {
      forall x ensures Tally(DeliveryFlags(w', k, x)) == Tally(DeliveryFlags(w, k, x)) {
        TallyAppend(DeliveryFlags(w, k, x), DeliveryFlags(w', k, x), false);
      }
    } else if a.Send? {
      SendKeepsSent(w, w', k, a.id, a.n);
    } else {
      StepFrame(w, w', a);
      SentFrame(w, w', k);
    }
  }

  // ------------------------------------------------------------------ the record stays true

  lemma WroteStays(w: World, w': World, k: Key, x: int)
    requires SameRows(w, w') && exists i :: Wrote(w, k, x, i)
    ensures exists i :: Wrote(w', k, x, i)
  {
    var i :| Wrote(w, k, x, i);
    assert Wrote(w', k, x, i);
  }

  lemma CheckpointKeepsRecord(w: World, w': World, k: Key, id: int)
    requires AllRows(w) && RecordTrue(w, k) && CheckpointStep(w, w', id)
    ensures RecordTrue(w', k)
  {
    var r := w.db.requests[id];
    assert RowOk(w, id);
    forall x | 0 < Count(Rows(w'.db.transmitted, k), x) ensures exists i :: Wrote(w', k, x, i) {
      if r.key == k && r.written < x <= w.track[id].sent {
        assert Wrote(w', k, x, id);
      } else {
        WroteStays(w, w', k, x);
      }
    }
  }

  lemma StepKeepsRecord(w: World, w': World, k: Key, a: Action)
    requires AllRows(w) && RecordTrue(w, k) && Does(w, w', a)
    ensures Valid0(w') && RecordTrue(w', k)
  {
    if Admits(a) {
      forall x | 0 < Count(Rows(w'.db.transmitted, k), x) ensures exists i :: Wrote(w', k, x, i) {
        var i :| Wrote(w, k, x, i);
        assert Wrote(w', k, x, i);
      }
    } else if a.Checkpoint? {
      CheckpointKeepsRecord(w, w', k, a.id);
    } else {
      StepFrame(w, w', a);
      forall x | 0 < Count(Rows(w'.db.transmitted, k), x) ensures exists i :: Wrote(w', k, x, i) {
        WroteStays(w, w', k, x);
      }
    }
  }
}
