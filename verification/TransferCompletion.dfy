/** Fragmentation, completion and receipts over every run of the transfer ledger. */
module TransferCompletion {
  import opened Segments
  import opened Coverage
  import opened Counting
  import opened Transfer
  import opened TransferSafety

  // ------------------------------------------------------------------ separate intervals

  /** Where the intervals that do not begin at byte 0 begin. */
  ghost function InnerStarts(s: seq<Segment>): set<int>
  {
    if s == [] then {}
    else InnerStarts(s[..|s| - 1]) + if 0 < s[|s| - 1].a then {s[|s| - 1].a} else {}
  }

  lemma {:induction false} InnerStartOf(s: seq<Segment>, y: int)
    ensures y in InnerStarts(s) <==> 0 < y && exists i :: 0 <= i < |s| && s[i].a == y
  {
    if s != [] {
      var front := s[..|s| - 1];
      InnerStartOf(front, y);
      if i :| 0 <= i < |front| && front[i].a == y { assert s[i].a == y; }
      if i :| 0 <= i < |s| && s[i].a == y && i < |front| { assert front[i].a == y; }
    }
  }

  lemma InnerStartMeans(s: seq<Segment>, y: int)
    requires Unit(s)
    ensures y in InnerStarts(s) <==> 0 < y && 0 < Count(s, y) && Count(s, y - 1) == 0
  {
    InnerStartOf(s, y);
    if i :| 0 <= i < |s| && s[i].a == y {
      GapBefore(s, i);
      CountAt(s, i, y);
    }
    if 0 < Count(s, y) && Count(s, y - 1) == 0 {
      var i := CountFind(s, y);
      if s[i].a < y { CountAt(s, i, y - 1); }
    }
  }

  /** On a file, all intervals but the one that holds byte 0 have their own inner start. */
  lemma {:induction false} InnerStartsNumber(s: seq<Segment>)
    requires Ordered(s) && forall i :: 0 <= i < |s| ==> 0 <= s[i].a
    ensures |InnerStarts(s)| == |s| - if s != [] && s[0].a == 0 then 1 else 0
  {
    if s != [] {
      InnerStartsNumber(s[..|s| - 1]);
      InnerStartOf(s[..|s| - 1], s[|s| - 1].a);
    }
  }

  /** Responses admitted as isolated that have not yet checkpointed a byte. */
  ghost function FreshFlags(w: World, k: Key): seq<bool>
    requires Valid0(w)
  {
    seq(|w.track|, i requires 0 <= i < |w.track| =>
      var r := w.db.requests[i];
      r.key == k && r.open && r.isolated && r.written == r.start - 1)
  }

  ghost predicate FewIntervals(w: World, k: Key)
    requires Valid0(w)
  {
    |InnerStarts(Rows(w.db.transmitted, k))| + Tally(FreshFlags(w, k)) <= MAX_INTERVALS
  }

  lemma TransmittedInFile(w: World, k: Key)
    requires AllRows(w) && RecordTrue(w, k) && k.fid in w.db.files
    ensures Within(Rows(w.db.transmitted, k), 0, w.db.files[k.fid].size)
  {
    var tr, size := Rows(w.db.transmitted, k), w.db.files[k.fid].size;
    forall x | 0 < Count(tr, x) ensures 0 <= x < size {
      var i :| Wrote(w, k, x, i);
      assert w.track[i] == w.track[i] && RowOk(w, i);
    }
    WithinFromCounts(tr, 0, size);
  }

  lemma NonNegativeStarts(w: World, k: Key)
    requires AllRows(w) && RecordTrue(w, k)
    ensures forall i :: 0 <= i < |Rows(w.db.transmitted, k)| ==> 0 <= Rows(w.db.transmitted, k)[i].a
  {
    var tr := Rows(w.db.transmitted, k);
    forall i | 0 <= i < |tr| ensures 0 <= tr[i].a {
      CountAt(tr, i, tr[i].a);
      var j :| Wrote(w, k, tr[i].a, j);
      assert w.track[j] == w.track[j] && RowOk(w, j);
    }
  }

  lemma ReserveKeepsFew(w: World, w': World, k: Key, g: Grant, start: int, end: int, now: int, offered: bool, v: Verdict)
    requires AllRows(w) && RecordTrue(w, k) && FewIntervals(w, k)
    requires v.Admitted? && ReserveStep(w, w', g, start, end, now, offered, v)
    ensures FewIntervals(w', k)
  {
    TallyAppend(FreshFlags(w, k), FreshFlags(w', k), g.key == k && v.isolated);
    if g.key == k && v.isolated {
      NonNegativeStarts(w, k);
      InnerStartsNumber(Rows(w.db.transmitted, k));
      TallyMonotone(FreshFlags(w, k), OpenIsolatedFlags(w.db.requests, k));
    }
  }

  lemma CheckpointKeepsFew(w: World, w': World, k: Key, id: int)
    requires AllRows(w) && RecordTrue(w, k) && FewIntervals(w, k) && CheckpointStep(w, w', id)
    ensures FewIntervals(w', k)
  {
    var r := w.db.requests[id];
    assert w.track[id] == w.track[id] && RowOk(w, id) && RowRecorded(w, id);
    FreshLess(w, w', k, id, w.track[id].sent);
    if r.key == k { CheckpointStarts(w, w', id); }
  }

  lemma CheckpointStarts(w: World, w': World, id: int)
    requires CheckpointStep(w, w', id) && RowOk(w, id) && RowRecorded(w, id)
    requires Unit(Rows(w.db.transmitted, w.db.requests[id].key))
    ensures var r := w.db.requests[id];
      |InnerStarts(Rows(w'.db.transmitted, r.key))| <= |InnerStarts(Rows(w.db.transmitted, r.key))|
                                                      + if r.isolated && r.written == r.start - 1 then 1 else 0
  {
    var r := w.db.requests[id];
    StartsGrow(Rows(w.db.transmitted, r.key), Rows(w'.db.transmitted, r.key), r.start, r.written, w.track[id].sent,
               r.isolated && r.written == r.start - 1);
  }

  /** The first checkpoint of an isolated response takes it off those without one. */
  lemma FreshLess(w: World, w': World, k: Key, id: int, sent: int)
    requires Valid(w, id) && Valid0(w') && |w'.track| == |w.track|
    requires var r := w.db.requests[id];
      && r.open && r.start - 1 <= r.written < sent
      && w'.db.requests == w.db.requests[id := r.(written := sent)]
    ensures var r := w.db.requests[id];
      Tally(FreshFlags(w', k)) == Tally(FreshFlags(w, k))
                                  - if r.key == k && r.isolated && r.written == r.start - 1 then 1 else 0
  {
    TallyUpdate(FreshFlags(w, k), FreshFlags(w', k), id);
  }

  /** Bytes checkpointed behind `start..written` begin a new interval only when the response is isolated
      and had none. */
  lemma StartsGrow(tr: seq<Segment>, tr': seq<Segment>, start: int, written: int, sent: int, first: bool)
    requires Unit(tr) && Unit(tr') && 0 <= start <= written + 1 && written < sent
    requires forall x :: Count(tr', x) == if written + 1 <= x <= sent || 0 < Count(tr, x) then 1 else 0
    requires Holds(tr, start, written) && (!first && written == start - 1 && start > 0 ==> 0 < Count(tr, start - 1))
    requires first ==> written == start - 1
    ensures |InnerStarts(tr')| <= |InnerStarts(tr)| + if first then 1 else 0
  {
    var bound := InnerStarts(tr) + if first then {start} else {};
    forall y | y in InnerStarts(tr') ensures y in bound {
      NewStart(tr, tr', start, written, sent, first, y);
    }
    SubsetSize(InnerStarts(tr'), bound);
  }

  lemma NewStart(tr: seq<Segment>, tr': seq<Segment>, start: int, written: int, sent: int, first: bool, y: int)
    requires Unit(tr) && Unit(tr') && 0 <= start <= written + 1 && written < sent
    requires forall x :: Count(tr', x) == if written + 1 <= x <= sent || 0 < Count(tr, x) then 1 else 0
    requires Holds(tr, start, written) && (!first && written == start - 1 && start > 0 ==> 0 < Count(tr, start - 1))
    requires y in InnerStarts(tr')
    ensures y in InnerStarts(tr) || (first && y == start)
  {
    InnerStartMeans(tr', y);
    InnerStartMeans(tr, y);
    CountNonNegative(tr, y - 1);
  }

  lemma SubsetSize<T>(a: set<T>, b: set<T>)
    requires a <= b
    ensures |a| <= |b|
  {
    assert b == a + (b - a);
  }

  lemma FreshShrinks(w: World, w': World, k: Key)
    requires SameRows(w, w')
    requires forall i :: 0 <= i < |w.track| ==>
      var r, r' := w.db.requests[i], w'.db.requests[i];
      r'.isolated == r.isolated && (r'.open ==> r.open) && r'.written == r.written
    ensures Tally(FreshFlags(w', k)) <= Tally(FreshFlags(w, k))
  {
    TallyMonotone(FreshFlags(w', k), FreshFlags(w, k));
  }

  /** Apart from admissions and checkpoints a step changes nothing in a request but may close it. */
  lemma RequestFrame(w: World, w': World, a: Action)
    requires Valid0(w) && Does(w, w', a) && !Admits(a) && !a.Checkpoint?
    ensures |w'.db.requests| == |w.db.requests|
    ensures forall i :: 0 <= i < |w.db.requests| ==>
      w'.db.requests[i] == w.db.requests[i].(open := w'.db.requests[i].open)
      && (w'.db.requests[i].open ==> w.db.requests[i].open)
    ensures !a.Settle? ==> w'.db.requests == w.db.requests
  {
  }

  lemma StepKeepsFew(w: World, w': World, k: Key, a: Action)
    requires AllRows(w) && RecordTrue(w, k) && FewIntervals(w, k) && Does(w, w', a)
    ensures Valid0(w') && FewIntervals(w', k)
  {
    if Admits(a) {
      ReserveKeepsFew(w, w', k, a.g, a.start, a.end, a.now, a.offered, a.v);
    } else if a.Checkpoint? {
      CheckpointKeepsFew(w, w', k, a.id);
    } else {
      StepFrame(w, w', a);
      RequestFrame(w, w', a);
      FreshShrinks(w, w', k);
    }
  }

  // ------------------------------------------------------------------ completion

  function CompleteFlags(outbox: seq<Receipt>, k: Key): seq<bool>
  {
    seq(|outbox|, j requires 0 <= j < |outbox| => outbox[j].key == k && outbox[j].outcome == "complete")
  }

  /** At most one complete receipt, and exactly for the completed orders. */
  ghost predicate CompleteOnce(db: Store, k: Key)
  {
    Tally(CompleteFlags(db.outbox, k)) == if k in db.completed then 1 else 0
  }

  /** Everything of a completed order and file is transmitted, no permission for it is usable and
      no writer is left. */
  ghost predicate CompletedMeans(w: World, k: Key)
    requires Valid0(w)
  {
    k in w.db.completed ==>
      && k.fid in w.db.files && FullyCovered(w.db, k)
      && (forall j :: j in w.db.permissions && w.db.permissions[j].key == k ==>
           w.db.permissions[j].state == Closed || w.db.permissions[j].state == Revoked)
      && NoWriter(w, k)
  }

  ghost predicate SomeOpen(db: Store, k: Key)
  {
    exists i :: 0 <= i < |db.requests| && db.requests[i].key == k && db.requests[i].open
  }

  /** A file with bytes, all transmitted and with no response open, is completed. */
  ghost predicate CoveredMeansCompleted(db: Store, k: Key)
  {
    (k.fid in db.files && 0 < db.files[k.fid].size && FullyCovered(db, k) && !SomeOpen(db, k)) ==>
      k in db.completed
  }

  ghost predicate Done(w: World, k: Key)
  {
    Valid0(w) && CompleteOnce(w.db, k) && CompletedMeans(w, k) && CoveredMeansCompleted(w.db, k)
  }

  lemma QueueKeepsOnce(db: Store, c: Key, outcome: string, k: Key)
    requires Queueable(db, c, outcome) && CompleteOnce(db, k)
    ensures CompleteOnce(Queue(db, c, outcome), k)
  {
    if !(outcome == "complete" && c in db.completed) {
      TallyAppend(CompleteFlags(db.outbox, k), CompleteFlags(Queue(db, c, outcome).outbox, k),
                  c == k && outcome == "complete");
    }
  }

  lemma ReserveKeepsDone(w: World, w': World, k: Key, g: Grant, start: int, end: int, now: int, offered: bool, v: Verdict)
    requires Done(w, k) && v.Admitted? && ReserveStep(w, w', g, start, end, now, offered, v)
    ensures Done(w', k)
  {
    assert !GateFails(w.db, g, now, ErrClosed) && !GateFails(w.db, g, now, ErrDeadline) && !GateFails(w.db, g, now, ErrNoRow);
    if g.key == k {
      assert w'.db.requests[|w.db.requests|].open;
    } else {
      OpenStays(w.db, w'.db, k);
    }
  }

  lemma OpenStays(db: Store, db': Store, k: Key)
    requires |db.requests| <= |db'.requests|
    requires forall i :: 0 <= i < |db.requests| && db.requests[i].key == k && db.requests[i].open ==>
      db'.requests[i].key == k && db'.requests[i].open
    ensures SomeOpen(db, k) ==> SomeOpen(db', k)
  {
    if i :| 0 <= i < |db.requests| && db.requests[i].key == k && db.requests[i].open {
      assert db'.requests[i].key == k;
    }
  }

  lemma CheckpointKeepsDone(w: World, w': World, k: Key, id: int)
    requires AllRows(w) && Done(w, k) && CheckpointStep(w, w', id)
    ensures Done(w', k)
  {
    var r := w.db.requests[id];
    var mid := w.db.(transmitted := w'.db.transmitted, requests := w'.db.requests);
    QueueKeepsOnce(mid, r.key, "in_progress", k);
    if r.key == k {
      assert w'.db.requests[id].open;
      CoverageGrows(w.db, w'.db, k);
    } else {
      OpenStays(w.db, w'.db, k);
    }
  }

  lemma CoverageGrows(db: Store, db': Store, k: Key)
    requires k.fid in db.files && db'.files == db.files
    requires forall x :: 0 < Count(Rows(db.transmitted, k), x) ==> 0 < Count(Rows(db'.transmitted, k), x)
    ensures FullyCovered(db, k) ==> FullyCovered(db', k)
  {
  }

  /** A queueable complete receipt has every byte. */
  lemma QueueableMeansCovered(w: World, k: Key)
    requires AllRows(w) && RecordTrue(w, k) && k.fid in w.db.files
    requires Bytes(Rows(w.db.transmitted, k)) == w.db.files[k.fid].size
    ensures FullyCovered(w.db, k)
  {
    TransmittedInFile(w, k);
    AllBytesHeld(Rows(w.db.transmitted, k), w.db.files[k.fid].size);
  }

  /** Settling a response leaves the completion of other orders and files as it was. */
  lemma SettleKeepsOthersDone(w: World, w': World, k: Key, id: int, crash: bool, outcome: string)
    requires AllRows(w) && SettleStep(w, w', id, crash, outcome)
    requires Done(w, k) && w.db.requests[id].key != k
    ensures Done(w', k)
  {
    var r := w.db.requests[id];
    if r.open {
      QueuedOnSettle(w, w', k, id, crash, outcome);
      OpenStays(w.db, w'.db, k);
    }
  }

  /** The receipt a settled response may queue keeps complete receipts single. */
  lemma QueuedOnSettle(w: World, w': World, k: Key, id: int, crash: bool, outcome: string)
    requires AllRows(w) && SettleStep(w, w', id, crash, outcome)
    requires CompleteOnce(w.db, k)
    ensures CompleteOnce(w'.db, k)
  {
    var r := w.db.requests[id];
    if r.open {
      var complete := FullyCovered(w.db, r.key);
      var mid := w'.db.(outbox := w.db.outbox, completed := w.db.completed);
      if complete || (!crash && outcome != "") {
        QueueKeepsOnce(mid, r.key, Outcome(outcome, complete), k);
      }
    }
  }

  lemma SettleKeepsDone(w: World, w': World, k: Key, id: int, crash: bool, outcome: string)
    requires AllRows(w) && SettleStep(w, w', id, crash, outcome)
    requires RecordTrue(w, w.db.requests[id].key) && Done(w, k)
    ensures Done(w', k)
  {
    var r := w.db.requests[id];
    if r.key != k {
      SettleKeepsOthersDone(w, w', k, id, crash, outcome);
    } else if r.open {
      QueuedOnSettle(w, w', k, id, crash, outcome);
      var complete := FullyCovered(w.db, k);
      if (complete || (!crash && outcome != "")) && Outcome(outcome, complete) == "complete" && k !in w.db.completed {
        QueueableMeansCovered(w, k);
      }
    }
  }

  lemma FinishEmptyKeepsDone(w: World, w': World, k: Key, g: Grant, now: int, offered: bool)
    requires Done(w, k) && FinishEmptyStep(w, w', g, now, offered)
    ensures Done(w', k)
  {
    var bound := if g.jti in w.db.permissions then w.db.permissions else Bind(w.db.permissions, g);
    var mid := w.db.(permissions := ClosePermissions(bound, g.key));
    QueueKeepsOnce(mid, g.key, "complete", k);
  }

  lemma StepKeepsDone(w: World, w': World, k: Key, a: Action)
    requires AllRows(w) && (forall c :: RecordTrue(w, c)) && Done(w, k) && Does(w, w', a)
    ensures Done(w', k)
  {
    match a
    case Reserve(g, start, end, now, offered, v) =>
      if v.Admitted? { ReserveKeepsDone(w, w', k, g, start, end, now, offered, v); }
    case Checkpoint(id) => CheckpointKeepsDone(w, w', k, id);
    case Settle(id, crash, outcome) => SettleKeepsDone(w, w', k, id, crash, outcome);
    case FinishEmpty(g, now, offered) => FinishEmptyKeepsDone(w, w', k, g, now, offered);
    case RevokeGrant(jti) =>
    case Expire(now) =>
    case Crash =>
    case Restart =>
    case Rollback =>
    case Begin(id, len, now) => WriterKeepsDone(w, w', k, a);
    case Send(id, n) => WriterKeepsDone(w, w', k, a);
    case Return(id) => WriterKeepsDone(w, w', k, a);
    case Doubt(id) => WriterKeepsDone(w, w', k, a);
  }

  lemma WriterKeepsDone(w: World, w': World, k: Key, a: Action)
    requires Done(w, k) && Does(w, w', a) && (a.Begin? || a.Send? || a.Return? || a.Doubt?)
    ensures Done(w', k)
  {
    assert w'.db == w.db;
    if k in w.db.completed {
      forall i | 0 <= i < |w'.track| && w'.db.requests[i].key == k ensures !w'.track[i].phase.Writing? {
        assert !w.track[i].phase.Writing?;
      }
    }
  }

  // ------------------------------------------------------------------ receipts

  ghost predicate Includes(s: seq<Segment>, t: seq<Segment>)
  {
    forall x :: 0 < Count(s, x) ==> 0 < Count(t, x)
  }

  /** A receipt tells the bytes of intervals it lists, and a complete one lists the whole file. */
  ghost predicate ReceiptTrue(w: World, rc: Receipt)
  {
    && rc.key.fid in w.db.files && rc.size == w.db.files[rc.key.fid].size
    && Unit(rc.transmitted) && Includes(rc.transmitted, Rows(w.db.transmitted, rc.key))
    && rc.transmittedBytes == |Held(rc.transmitted, 0, rc.size)|
    && (rc.outcome == "complete" ==> rc.transmittedBytes == rc.size && Holds(rc.transmitted, 0, rc.size - 1))
  }

  /** Receipts are true, and those of one order and file only ever add bytes. */
  ghost predicate ReceiptsTrue(w: World)
  {
    && (forall j :: 0 <= j < |w.db.outbox| ==> ReceiptTrue(w, w.db.outbox[j]))
    && (forall i, j :: 0 <= i < j < |w.db.outbox| && w.db.outbox[i].key == w.db.outbox[j].key ==>
          Includes(w.db.outbox[i].transmitted, w.db.outbox[j].transmitted))
  }

  lemma ReceiptStays(w: World, w': World, rc: Receipt)
    requires ReceiptTrue(w, rc) && w'.db.files == w.db.files
    requires Includes(Rows(w.db.transmitted, rc.key), Rows(w'.db.transmitted, rc.key))
    ensures ReceiptTrue(w', rc)
  {
  }

  /** The receipt `Queue` writes is true of the store it is written into. */
  lemma NewReceiptTrue(w: World, k: Key, outcome: string)
    requires AllRows(w) && RecordTrue(w, k) && k.fid in w.db.files
    requires outcome == "complete" ==> Bytes(Rows(w.db.transmitted, k)) == w.db.files[k.fid].size
    ensures ReceiptTrue(w, ReceiptFor(w.db, k, outcome))
  {
    var tr, size := Rows(w.db.transmitted, k), w.db.files[k.fid].size;
    TransmittedInFile(w, k);
    BytesAreHeld(tr, 0, size);
    AllBytesHeld(tr, size);
  }

  /** Receipts survive a step that queues at most one more, for the store after the step. */
  lemma OutboxGrows(w: World, w': World, k: Key, outcome: string)
    requires ReceiptsTrue(w) && w'.db.files == w.db.files
    requires forall c :: Includes(Rows(w.db.transmitted, c), Rows(w'.db.transmitted, c))
    requires w'.db.outbox == w.db.outbox
      || (&& AllRows(w') && RecordTrue(w', k) && k.fid in w'.db.files
          && (outcome == "complete" ==> Bytes(Rows(w'.db.transmitted, k)) == w'.db.files[k.fid].size)
          && w'.db.outbox == w.db.outbox + [ReceiptFor(w'.db, k, outcome)])
    ensures ReceiptsTrue(w')
  {
    forall j | 0 <= j < |w.db.outbox| ensures ReceiptTrue(w', w.db.outbox[j]) {
      ReceiptStays(w, w', w.db.outbox[j]);
    }
    if w'.db.outbox != w.db.outbox {
      NewReceiptTrue(w', k, outcome);
    }
  }

  lemma StepKeepsReceipts(w: World, w': World, a: Action)
    requires AllRows(w) && ReceiptsTrue(w) && Does(w, w', a)
    requires AllRows(w') && forall c :: RecordTrue(w', c)
    ensures ReceiptsTrue(w')
  {
    match a
    case Reserve(g, start, end, now, offered, v) => OutboxGrows(w, w', g.key, "");
    case Checkpoint(id) => OutboxGrows(w, w', w.db.requests[id].key, "in_progress");
    case Settle(id, crash, outcome) =>
      var r := w.db.requests[id];
      OutboxGrows(w, w', r.key, if r.open then Outcome(outcome, FullyCovered(w.db, r.key)) else "");
    case FinishEmpty(g, now, offered) => OutboxGrows(w, w', g.key, "complete");
    case _ => OutboxGrows(w, w', Key("", ""), "");
  }
}
