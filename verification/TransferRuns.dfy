/** The promises of the transfer ledger, over every run from an empty store: any interleaving of
    responses, revocations, deadlines, failed transactions, crashes and recoveries. */
module TransferRuns {
  import opened Segments
  import opened Coverage
  import opened Counting
  import opened Transfer
  import opened TransferSafety
  import opened TransferCompletion

  ghost predicate KeyInv(w: World, k: Key)
    requires Valid0(w)
  {
    ServesExact(w, k) && SentExact(w, k) && RecordTrue(w, k) && FewIntervals(w, k) && Done(w, k)
  }

  ghost predicate Invariant(w: World)
  {
    AllRows(w) && OneWriter(w) && ReceiptsTrue(w) && forall k :: KeyInv(w, k)
  }

  lemma InitialHolds(w: World)
    requires Initial(w)
    ensures Invariant(w)
  {
    forall k ensures KeyInv(w, k) {
      if k.fid in w.db.files && 0 < w.db.files[k.fid].size {
        assert Count([], 0) == 0;
        assert !FullyCovered(w.db, k);
      }
    }
  }

  lemma StepHolds(w: World, w': World, a: Action)
    requires Invariant(w) && Does(w, w', a)
    ensures Invariant(w')
  {
    forall k ensures RecordTrue(w, k) && Unit(Rows(w.db.transmitted, k)) { assert KeyInv(w, k); }
    StepKeepsRows(w, w', a);
    forall k ensures KeyInv(w', k) {
      assert KeyInv(w, k);
      StepKeepsServes(w, w', k, a);
      StepKeepsSent(w, w', k, a);
      StepKeepsRecord(w, w', k, a);
      StepKeepsFew(w, w', k, a);
      StepKeepsDone(w, w', k, a);
    }
    forall k ensures RecordTrue(w', k) { assert KeyInv(w', k); }
    StepKeepsReceipts(w, w', a);
  }

  /** Every world a run reaches satisfies the invariant. */
  lemma {:induction false} RunHolds(run: seq<World>, i: nat)
    requires IsRun(run) && Initial(run[0]) && i < |run|
    ensures Invariant(run[i])
  {
    if i == 0 {
      InitialHolds(run[0]);
    } else {
      RunHolds(run, i - 1);
      assert Follows(run, i - 1);
      var a :| Does(run[i - 1], run[i], a);
      StepHolds(run[i - 1], run[i], a);
    }
  }

  // ------------------------------------------------------------------ serve counts

  /** No byte of an order and file is put on the network more often than its serve count says, and
      the serve count never passes two, whatever crashes. */
  lemma NeverMoreThanTwice(run: seq<World>, i: nat, k: Key, x: int)
    requires IsRun(run) && Initial(run[0]) && i < |run|
    ensures TimesSent(run[i].net, k, x) <= Count(Rows(run[i].db.serves, k), x) <= 2
  {
    RunHolds(run, i);
    var w := run[i];
    assert KeyInv(w, k);
    forall j | 0 <= j < |w.track| && DeliveryFlags(w, k, x)[j] ensures ChargeFlags(w, k, x)[j] {
      assert w.track[j] == w.track[j] && RowOk(w, j);
    }
    TallyMonotone(DeliveryFlags(w, k, x), ChargeFlags(w, k, x));
  }

  /** Releasing the unused end of a response takes exactly one serve from each of its bytes: the
      list transformation never has to drop a negative count. */
  lemma ReleaseIsExact(run: seq<World>, i: nat, w': World, id: int, crash: bool, outcome: string, x: int)
    requires IsRun(run) && Initial(run[0]) && i < |run|
    requires SettleStep(run[i], w', id, crash, outcome)
    ensures var r, k := run[i].db.requests[id], run[i].db.requests[id].key;
      Count(Rows(w'.db.serves, k), x) == Count(Rows(run[i].db.serves, k), x)
        - if r.open && Keep(r, crash) < x <= r.end then 1 else 0
  {
    RunHolds(run, i);
    var w := run[i];
    var r := w.db.requests[id];
    assert KeyInv(w, r.key);
    assert w.track[id] == w.track[id] && RowOk(w, id);
    if r.open && Keep(r, crash) < x <= r.end { TallySome(ChargeFlags(w, r.key, x), id); }
    CountNonNegative(Rows(w.db.serves, r.key), x);
  }

  /** A response keeps at most one window it did not checkpoint: what it wrote lies within a window
      of its checkpoint, and once closed so does what it is charged for. */
  lemma OneWindowAtRisk(run: seq<World>, i: nat, id: int)
    requires IsRun(run) && Initial(run[0]) && i < |run| && 0 <= id < |run[i].track|
    ensures Valid(run[i], id)
    ensures var r, t := run[i].db.requests[id], run[i].track[id];
      && r.written <= t.sent <= t.charged && t.sent <= r.written + WINDOW
      && (if r.open then t.charged == r.end else t.charged <= r.written + WINDOW)
  {
    RunHolds(run, i);
    assert run[i].track[id] == run[i].track[id] && RowOk(run[i], id);
  }

  /** What the ledger records as transmitted really went out. */
  lemma RecordedWasSent(run: seq<World>, i: nat, k: Key, x: int)
    requires IsRun(run) && Initial(run[0]) && i < |run|
    requires 0 < Count(Rows(run[i].db.transmitted, k), x)
    ensures 1 <= TimesSent(run[i].net, k, x)
  {
    RunHolds(run, i);
    var w := run[i];
    assert KeyInv(w, k);
    var j :| Wrote(w, k, x, j);
    assert w.track[j] == w.track[j] && RowOk(w, j);
    TallySome(DeliveryFlags(w, k, x), j);
  }

  // ------------------------------------------------------------------ fragmentation

  /** At most 1024 intervals besides the one at byte 0, so at most 1025 rows. */
  lemma IntervalsStayFew(run: seq<World>, i: nat, k: Key)
    requires IsRun(run) && Initial(run[0]) && i < |run|
    ensures var tr := Rows(run[i].db.transmitted, k);
      |InnerStarts(tr)| <= MAX_INTERVALS && |tr| <= MAX_INTERVALS + 1
  {
    RunHolds(run, i);
    assert KeyInv(run[i], k);
    NonNegativeStarts(run[i], k);
    InnerStartsNumber(Rows(run[i].db.transmitted, k));
  }

  // ------------------------------------------------------------------ completion

  /** One complete receipt for a completed order and file, none for any other. */
  lemma CompleteAtMostOnce(run: seq<World>, i: nat, k: Key)
    requires IsRun(run) && Initial(run[0]) && i < |run|
    ensures Tally(CompleteFlags(run[i].db.outbox, k)) == if k in run[i].db.completed then 1 else 0
    ensures k in run[i].db.completed ==> k.fid in run[i].db.files && FullyCovered(run[i].db, k)
  {
    RunHolds(run, i);
    assert KeyInv(run[i], k);
  }

  /** A file with bytes is completed as soon as all are transmitted and the last response closed. */
  lemma CoveredAndClosedIsCompleted(run: seq<World>, i: nat, k: Key)
    requires IsRun(run) && Initial(run[0]) && i < |run|
    requires k.fid in run[i].db.files && 0 < run[i].db.files[k.fid].size && FullyCovered(run[i].db, k)
    requires !SomeOpen(run[i].db, k)
    ensures k in run[i].db.completed
  {
    RunHolds(run, i);
    assert KeyInv(run[i], k);
  }

  /** Fully transmitted, and no response inside `WriteChunk`. */
  ghost predicate Quiet(w: World, k: Key)
  {
    Valid0(w) && k.fid in w.db.files && FullyCovered(w.db, k) && NoWriter(w, k)
  }

  lemma QuietAdmission(w: World, w': World, k: Key, a: Action)
    requires Quiet(w, k) && Does(w, w', a) && Admits(a)
    ensures Quiet(w', k) && w'.net == w.net
  {
  }

  lemma QuietStep(w: World, w': World, k: Key, x: int, a: Action)
    requires Invariant(w) && Quiet(w, k) && Does(w, w', a)
    ensures Quiet(w', k) && TimesSent(w'.net, k, x) == TimesSent(w.net, k, x)
  {
    if Admits(a) {
      QuietAdmission(w, w', k, a);
    } else {
      StepFrame(w, w', a);
      if a.Send? {
        TallyAppend(SentFlags(w.net, k, x), SentFlags(w'.net, k, x), false);
      } else if a.Checkpoint? {
        CoverageGrows(w.db, w'.db, k);
      }
      NoNewWriter(w, w', k, a);
    }
  }

  /** On a quiet order and file no step makes a writer. */
  lemma NoNewWriter(w: World, w': World, k: Key, a: Action)
    requires Quiet(w, k) && Does(w, w', a) && SameRows(w, w')
    ensures NoWriter(w', k)
  {
    forall i | 0 <= i < |w'.track| && w'.db.requests[i].key == k ensures !w'.track[i].phase.Writing? {
      assert !w.track[i].phase.Writing?;
    }
  }

  /** Once every byte is transmitted and no writer is left, nothing more of that order and file is
      ever sent. */
  lemma {:induction false} SilentAfterCoverage(run: seq<World>, i: nat, j: nat, k: Key, x: int)
    requires IsRun(run) && Initial(run[0]) && i <= j < |run| && Quiet(run[i], k)
    ensures Quiet(run[j], k) && TimesSent(run[j].net, k, x) == TimesSent(run[i].net, k, x)
  {
    if i < j {
      SilentAfterCoverage(run, i, j - 1, k, x);
      RunHolds(run, j - 1);
      assert Follows(run, j - 1);
      var a :| Does(run[j - 1], run[j], a);
      QuietStep(run[j - 1], run[j], k, x, a);
    }
  }

  /** A completed order and file stays completed and silent. */
  lemma SilentAfterCompletion(run: seq<World>, i: nat, j: nat, k: Key, x: int)
    requires IsRun(run) && Initial(run[0]) && i <= j < |run| && k in run[i].db.completed
    ensures TimesSent(run[j].net, k, x) == TimesSent(run[i].net, k, x)
    ensures forall p :: p in run[j].db.permissions && run[j].db.permissions[p].key == k ==>
      run[j].db.permissions[p].state == Closed || run[j].db.permissions[p].state == Revoked
  {
    RunHolds(run, i);
    assert KeyInv(run[i], k);
    SilentAfterCoverage(run, i, j, k, x);
    CompletedStays(run, i, j, k);
    RunHolds(run, j);
    assert KeyInv(run[j], k);
  }

  lemma {:induction false} CompletedStays(run: seq<World>, i: nat, j: nat, k: Key)
    requires IsRun(run) && i <= j < |run| && k in run[i].db.completed
    ensures k in run[j].db.completed
  {
    if i < j {
      CompletedStays(run, i, j - 1, k);
      assert Follows(run, j - 1);
    }
  }

  /** Receipts tell exactly the bytes of their intervals; a later receipt of the same order and file
      lists every byte an earlier one did; a complete one lists the file. */
  lemma ReceiptsCumulative(run: seq<World>, t: nat, i: nat, j: nat)
    requires IsRun(run) && Initial(run[0]) && t < |run|
    requires i <= j < |run[t].db.outbox| && run[t].db.outbox[i].key == run[t].db.outbox[j].key
    ensures Includes(run[t].db.outbox[i].transmitted, run[t].db.outbox[j].transmitted)
    ensures var rc := run[t].db.outbox[j];
      && rc.transmittedBytes == |Held(rc.transmitted, 0, rc.size)|
      && (rc.outcome == "complete" ==> Holds(rc.transmitted, 0, rc.size - 1))
  {
    RunHolds(run, t);
    assert ReceiptTrue(run[t], run[t].db.outbox[j]);
  }
}
