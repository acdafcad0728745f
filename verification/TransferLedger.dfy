/** The ledger object: its tables as fields, its transactions as methods.  `history` is the run of
    steps that led to the present state, so every promise proved of runs holds of the object. */
module TransferLedger {
  import opened Segments
  import opened Coverage
  import opened Counting
  import opened Transfer
  import opened TransferSafety
  import opened TransferCompletion
  import opened TransferRuns

  /** What one call of the write callback meets: the clock before it, the bytes the network takes,
      whether it also reports an error, and whether a checkpoint made right after it commits. */
  datatype Call = Call(now: int, taken: nat, error: bool, saved: bool)

  /** What one `WriteChunk` meets. */
  datatype ChunkEnv = ChunkEnv(now: int, calls: seq<Call>, lastSaved: bool, nowAfter: int)

  datatype PrepareAck = PrepareAck(resumeOffset: int, transmittedBytes: int, intervalCount: int,
                                   maxServeCount: int, refusal: string)

  datatype WriteError = NoError | WriteFailed | Expired | NotPermitted | BadChunk | ProgressLost

  /** Why a permitted `WriteChunk` stopped: a lost checkpoint, an error of the callback, the deadline,
      or a callback that took nothing; with none of these the whole chunk is out. */
  ghost predicate Explained(err: WriteError, n: int, len: int, deadline: int, calls: seq<Call>, lastSaved: bool, nowAfter: int)
  {
    match err
    case NoError => n == len || |calls| <= n || exists c :: c in calls && c.taken == 0
    case WriteFailed => exists c :: c in calls && c.error
    case Expired => nowAfter >= deadline || exists c :: c in calls && c.now >= deadline
    case ProgressLost => !lastSaved || exists c :: c in calls && !c.saved
    case NotPermitted => false
    case BadChunk => false
  }

  lemma UnitFromCounts(s: seq<Segment>)
    requires Canonical(s) && forall x :: 0 < Count(s, x) ==> Count(s, x) == 1
    ensures Unit(s)
  {
    forall i | 0 <= i < |s| ensures s[i].c == 1 { CountAt(s, i, s[i].a); }
  }

  /** Transmitted intervals with `a..b` added: the counts go back to one and neighbours are joined. */
  method AddTransmitted(tr: seq<Segment>, a: int, b: int) returns (out: seq<Segment>)
    requires Unit(tr)
    ensures Unit(out)
    ensures forall x :: Count(out, x) == if a <= x <= b || 0 < Count(tr, x) then 1 else 0
  {
    forall x ensures 0 <= Count(tr, x) { CountNonNegative(tr, x); }
    out := Transform(tr, a, b, 1);
    out := Flatten(out);
    out := Normalize(out);
    UnitFromCounts(out);
  }

  /** Where a response must stop: before the first byte already at two serves. */
  method Clip(ss: seq<Segment>, start: int, end: int) returns (exhausted: bool, upto: int)
    requires Canonical(ss) && start <= end && forall x :: Count(ss, x) <= 2
    ensures exhausted <==> Count(ss, start) == 2
    ensures !exhausted ==> Clipped(ss, start, end, upto)
  {
    exhausted, upto := false, end;
    var i := 0;
    while i < |ss|
      invariant 0 <= i <= |ss|
      invariant forall k :: 0 <= k < i ==> !(ss[k].c == 2 && ss[k].a <= end && ss[k].b >= start)
    {
      if ss[i].c == 2 && ss[i].a <= end && ss[i].b >= start {
        if ss[i].a <= start {
          CountAt(ss, i, start);
          return true, end;
        }
        upto := ss[i].a - 1;
        CountAt(ss, i, ss[i].a);
        forall x | start <= x <= upto ensures Count(ss, x) != 2 {
          if Count(ss, x) == 2 { var k := CountFind(ss, x); }
        }
        return;
      }
      i := i + 1;
    }
    forall x | start <= x <= end ensures Count(ss, x) != 2 {
      if Count(ss, x) == 2 { var k := CountFind(ss, x); }
    }
  }

  /** Whether byte `start` would begin an interval of its own. */
  method Detached(tr: seq<Segment>, start: int) returns (isolated: bool)
    requires Unit(tr)
    ensures isolated == Isolated(tr, start)
  {
    isolated := false;
    if start > 0 {
      var attached := Covered(tr, start - 1, start - 1);
      CoveredMeansHeld(tr, start - 1, start - 1);
      CountNonNegative(tr, start - 1);
      isolated := !attached;
    }
  }

  lemma ServesInFile(w: World, k: Key)
    requires AllRows(w) && ServesExact(w, k) && k.fid in w.db.files
    ensures Within(Rows(w.db.serves, k), 0, w.db.files[k.fid].size)
  {
    var ss, size := Rows(w.db.serves, k), w.db.files[k.fid].size;
    forall x | 0 < Count(ss, x) ensures 0 <= x < size {
      if forall i :: 0 <= i < |w.track| ==> !ChargeFlags(w, k, x)[i] {
        TallyNone(ChargeFlags(w, k, x));
      } else {
        var i :| 0 <= i < |w.track| && ChargeFlags(w, k, x)[i];
        assert w.track[i] == w.track[i] && RowOk(w, i);
      }
    }
    WithinFromCounts(ss, 0, size);
  }

  lemma RunExtends(run: seq<World>, w: World, a: Action)
    requires IsRun(run) && Does(run[|run| - 1], w, a)
    ensures IsRun(run + [w])
  {
    var longer := run + [w];
    forall i | 0 <= i < |longer| - 1 ensures Follows(longer, i) {
      if i < |run| - 1 { assert Follows(run, i); } else { assert Step(run[i], w); }
    }
  }

  /** What the segment work needs to know of the tables of one order and file. */
  ghost predicate Fit(db: Store, k: Key)
  {
    && Canonical(Rows(db.serves, k)) && Unit(Rows(db.transmitted, k))
    && (forall x :: Count(Rows(db.serves, k), x) <= 2)
    && (k.fid in db.files ==> 0 <= db.files[k.fid].size && Within(Rows(db.serves, k), 0, db.files[k.fid].size))
    && (k.fid in db.files ==> (FullyCovered(db, k) <==> Bytes(Rows(db.transmitted, k)) == db.files[k.fid].size))
  }

  lemma KeyFacts(run: seq<World>, k: Key)
    requires IsRun(run) && Initial(run[0])
    ensures Fit(run[|run| - 1].db, k)
  {
    RunHolds(run, |run| - 1);
    var w := run[|run| - 1];
    assert KeyInv(w, k);
    if k.fid in w.db.files {
      ServesInFile(w, k);
      TransmittedInFile(w, k);
      AllBytesHeld(Rows(w.db.transmitted, k), w.db.files[k.fid].size);
    }
  }

  lemma RowFacts(run: seq<World>, id: int)
    requires IsRun(run) && Initial(run[0]) && 0 <= id < |run[|run| - 1].track|
    ensures Valid(run[|run| - 1], id) && RowOk(run[|run| - 1], id)
  {
    RunHolds(run, |run| - 1);
    assert run[|run| - 1].track[id] == run[|run| - 1].track[id];
  }

  class Ledger {
    const files: map<string, File>
    var serves: map<Key, seq<Segment>>
    var transmitted: map<Key, seq<Segment>>
    var requests: seq<Request>
    var permissions: map<string, Permission>
    var revocations: set<string>
    var completed: set<Key>
    var outbox: seq<Receipt>
    ghost var track: seq<Track>
    ghost var net: seq<NetWrite>
    ghost var up: bool
    ghost var history: seq<World>

    function Db(): Store
      reads this
    {
      Store(files, serves, transmitted, requests, permissions, revocations, completed, outbox)
    }

    ghost function View(): World
      reads this
    {
      World(Db(), track, net, up)
    }

    /** The present state is where a run of the state machine has led. */
    ghost predicate Lawful()
      reads this
    {
      && IsRun(history) && Initial(history[0]) && history[|history| - 1] == View()
      && |track| == |requests|
    }

    constructor (files: map<string, File>)
      requires forall f :: f in files ==> 0 <= files[f].size
      ensures Lawful() && up && this.files == files && Initial(View())
    {
      this.files, serves, transmitted, requests := files, map[], map[], [];
      permissions, revocations, completed, outbox := map[], {}, {}, [];
      track, net, up := [], [], true;
      history := [World(Store(files, map[], map[], [], map[], {}, {}, []), [], [], true)];
    }

    /** Appends the step just taken to the history. */
    ghost method Took(a: Action)
      requires IsRun(history) && Initial(history[0]) && Does(history[|history| - 1], View(), a)
      requires |track| == |requests|
      modifies this`history
      ensures Lawful() && history == old(history) + [View()]
    {
      RunExtends(history, View(), a);
      history := history + [View()];
    }

    /** What holds of the tables whenever the ledger is at rest, whatever was called before. */
    lemma Promises(k: Key, x: int)
      requires Lawful()
      ensures TimesSent(net, k, x) <= Count(Rows(serves, k), x) <= 2
      ensures 0 < Count(Rows(transmitted, k), x) ==> 1 <= TimesSent(net, k, x)
      ensures |Rows(transmitted, k)| <= MAX_INTERVALS + 1
      ensures k in completed ==> k.fid in files && FullyCovered(Db(), k)
      ensures Tally(CompleteFlags(outbox, k)) == if k in completed then 1 else 0
    {
      var i := |history| - 1;
      NeverMoreThanTwice(history, i, k, x);
      if 0 < Count(Rows(transmitted, k), x) { RecordedWasSent(history, i, k, x); }
      IntervalsStayFew(history, i, k);
      CompleteAtMostOnce(history, i, k);
    }

    // ---------------------------------------------------------------- reserve

    method CountOpenIsolated(k: Key) returns (n: int)
      ensures n == Tally(OpenIsolatedFlags(requests, k))
    {
      n := 0;
      ghost var flags := OpenIsolatedFlags(requests, k);
      var i := 0;
      while i < |requests|
        invariant 0 <= i <= |requests| && n == Tally(flags[..i])
      {
        TallyAppend(flags[..i], flags[..i + 1], flags[i]);
        if requests[i].key == k && requests[i].open && requests[i].isolated { n := n + 1; }
        i := i + 1;
      }
      assert flags[..i] == flags;
    }

    /** Every byte of the file is transmitted, or it has none. */
    method Full(k: Key) returns (r: bool)
      requires Unit(Rows(transmitted, k)) && k.fid in files && 0 <= files[k.fid].size
      ensures r == FullyCovered(Db(), k)
    {
      var size := files[k.fid].size;
      if size == 0 { return true; }
      r := Covered(Rows(transmitted, k), 0, size - 1);
      CoveredMeansHeld(Rows(transmitted, k), 0, size - 1);
    }

    /** The checks before the interval work. */
    method Gate(g: Grant, now: int) returns (failed: bool, e: Error)
      requires Lawful()
      ensures failed == exists x :: GateFails(Db(), g, now, x)
      ensures failed ==> GateFails(Db(), g, now, e)
    {
      KeyFacts(history, g.key);
      failed, e := true, ErrClosed;
      if !RowAccepts(Db(), g) {
      } else if now >= g.terms.transferBy || (!IsBound(Db(), g.jti) && now >= g.terms.startBy) {
        e := ErrDeadline;
      } else if g.jti in revocations || g.key in completed {
      } else if g.key.fid !in files {
        e := ErrNoRow;
      } else {
        failed := Full(g.key);
      }
      assert failed ==> GateFails(Db(), g, now, e);
    }

    /** The answer `Reserve` gives, from the tables as they stand. */
    method Decide(g: Grant, start: int, end: int, now: int, offered: bool) returns (v: Verdict)
      requires Lawful()
      ensures Answers(Db(), g, start, end, now, offered, v)
    {
      var failed, e := Gate(g, now);
      if failed { return Refused(e); }
      var ss, tr := Rows(serves, g.key), Rows(transmitted, g.key);
      KeyFacts(history, g.key);
      if start < 0 || end < start { return Refused(ErrInvalid); }
      var exhausted, upto := Clip(ss, start, end);
      if exhausted { return Refused(ErrExhausted); }
      var isolated := Detached(tr, start);
      if isolated {
        var waiting := CountOpenIsolated(g.key);
        if |tr| + waiting + 1 > MAX_INTERVALS { return Refused(ErrFragmented); }
      }
      if !IsBound(Db(), g.jti) && !offered { return Refused(ErrClosed); }
      v := Admitted(upto, isolated);
    }

    /** Writes an admission into the tables. */
    method Book(g: Grant, start: int, v: Verdict)
      requires v.Admitted? && Canonical(Rows(serves, g.key)) && |track| == |requests|
      modifies this`permissions, this`serves, this`requests, this`track
      ensures Reserved(old(Db()), Db(), g, start, v) && |track| == |requests|
      ensures track == old(track) + [Track(v.end, start - 1, Idle)]
    {
      forall x ensures 0 <= Count(Rows(serves, g.key), x) { CountNonNegative(Rows(serves, g.key), x); }
      if !IsBound(Db(), g.jti) { permissions := Bind(permissions, g); }
      var ss := Transform(Rows(serves, g.key), start, v.end, 1);
      serves := serves[g.key := ss];
      requests := requests + [Request(g.jti, g.key, start, v.end, start - 1, true, v.isolated)];
      track := track + [Track(v.end, start - 1, Idle)];
    }

    /** Charges a response for `start..end`, cut short before bytes already served twice. */
    method Reserve(g: Grant, start: int, end: int, now: int, offered: bool) returns (v: Verdict, id: int)
      requires Lawful() && up
      requires g.key.fid in files ==> 0 <= end < files[g.key.fid].size || end < start
      modifies this
      ensures Lawful() && history == old(history) + [View()]
      ensures ReserveStep(old(View()), View(), g, start, end, now, offered, v)
      ensures id == old(|requests|)
    {
      id := |requests|;
      v := Decide(g, start, end, now, offered);
      if v.Admitted? {
        KeyFacts(history, g.key);
        Book(g, start, v);
      }
      Took(Action.Reserve(g, start, end, now, offered, v));
    }

    // ---------------------------------------------------------------- receipts

    /** Queues a receipt; a complete one only once, and never for missing bytes. */
    method QueueTx(k: Key, outcome: string) returns (ok: bool)
      requires k.fid in files && 0 <= files[k.fid].size
      requires Canonical(Rows(serves, k)) && Canonical(Rows(transmitted, k))
      requires Within(Rows(serves, k), 0, files[k.fid].size)
      modifies this`outbox, this`completed
      ensures ok == Queueable(old(Db()), k, outcome)
      ensures Db() == if ok then Queue(old(Db()), k, outcome) else old(Db())
    {
      if outcome == "complete" && k in completed { return true; }
      var size, tr := files[k.fid].size, Rows(transmitted, k);
      var bytes := CountBytes(tr);
      var spent := MaxServesReached(Rows(serves, k), tr, 0, size);
      if outcome == "complete" && bytes != size { return false; }
      outbox := outbox + [Receipt(k, outcome, size, tr, bytes, spent)];
      if outcome == "complete" { completed := completed + {k}; }
      ok := true;
    }

    // ---------------------------------------------------------------- writing

    /** Records that the response got to `written`; `saved` says whether the transaction commits. */
    method Progress(id: int, written: int, saved: bool) returns (ok: bool)
      requires Lawful() && up && 0 <= id < |requests|
      requires track[id].phase.Writing? && requests[id].written < written == track[id].sent
      modifies this
      ensures Lawful() && ok == saved
      ensures if ok then CheckpointStep(old(View()), View(), id) && history == old(history) + [View()]
              else View() == old(View()) && history == old(history)
    {
      ok := saved;
      if !saved { return; }
      RowFacts(history, id);
      KeyFacts(history, requests[id].key);
      Record(id, written);
      Took(Action.Checkpoint(id));
    }

    /** The tables after a checkpoint. */
    method Record(id: int, written: int)
      requires 0 <= id < |requests| && requests[id].open && requests[id].written < written <= requests[id].end
      requires var k := requests[id].key;
        && Canonical(Rows(serves, k)) && Unit(Rows(transmitted, k))
        && k.fid in files && 0 <= files[k.fid].size && Within(Rows(serves, k), 0, files[k.fid].size)
      modifies this`transmitted, this`requests, this`outbox, this`completed
      ensures Progressed(old(Db()), Db(), id, written)
    {
      var r := requests[id];
      var tr := AddTransmitted(Rows(transmitted, r.key), r.written + 1, written);
      transmitted := transmitted[r.key := tr];
      requests := requests[id := r.(written := written)];
      var queued := QueueTx(r.key, "in_progress");
    }

    /** Whether `WriteChunk` may start. */
    method MayStart(id: int, len: int, now: int) returns (err: WriteError)
      requires Lawful() && 0 <= id < |requests|
      ensures err == NoError <==> MayWrite(Db(), requests[id], len, now)
      ensures err in {NoError, NotPermitted, Expired, BadChunk}
    {
      var r := requests[id];
      RowFacts(history, id);
      KeyFacts(history, r.key);
      if !r.open || !IsBound(Db(), r.jti) { return NotPermitted; }
      if now >= permissions[r.jti].terms.transferBy { return Expired; }
      if r.key in completed { return NotPermitted; }
      var full := Full(r.key);
      if full { return NotPermitted; }
      if len <= 0 || r.written + len > r.end { return BadChunk; }
      err := NoError;
    }

    /** The network takes `took` bytes of the response. */
    method Put(id: int, took: int)
      requires Lawful() && up && 0 <= id < |requests| && track[id].phase.Writing? && 0 <= took
      requires track[id].sent + took <= track[id].phase.upto && track[id].sent + took <= requests[id].written + WINDOW
      modifies this`track, this`net, this`history
      ensures Lawful() && old(history) <= history
      ensures track == old(track)[id := old(track)[id].(sent := old(track)[id].sent + took)]
    {
      net := net + [NetWrite(requests[id].key, track[id].sent + 1, track[id].sent + took)];
      track := track[id := track[id].(sent := track[id].sent + took)];
      Took(Action.Send(id, took));
    }

    /** A checkpoint of everything written so far; when it fails the response is in doubt. */
    method Save(id: int, written: int, saved: bool) returns (ok: bool)
      requires Lawful() && up && 0 <= id < |requests| && track[id].phase.Writing?
      requires requests[id].written < written == track[id].sent
      modifies this
      ensures Lawful() && old(history) <= history && up && ok == saved && permissions == old(permissions)
      ensures requests == if ok then old(requests)[id := old(requests)[id].(written := written)] else old(requests)
      ensures track == if ok then old(track) else old(track)[id := old(track)[id].(phase := Doubtful)]
    {
      ok := Progress(id, written, saved);
      if !ok {
        track := track[id := track[id].(phase := Doubtful)];
        Took(Action.Doubt(id));
      }
    }

    method CloseExpiredPermissions(now: int)
      requires Lawful()
      modifies this`permissions, this`history
      ensures Lawful() && old(history) <= history && permissions == CloseExpired(old(permissions), now)
    {
      permissions := CloseExpired(permissions, now);
      Took(Action.Expire(now));
    }

    /** One turn of the loop of `WriteChunk`: `n` bytes are out, `checkpoint` of them recorded.  The
        network takes some of what is left of the window; a full window is checkpointed. */
    method Turn(id: int, len: int, start: int, n: int, checkpoint: int, c: Call)
      returns (took: int, recorded: int, lost: bool)
      requires Lawful() && up && 0 <= id < |requests|
      requires 0 <= checkpoint <= n < len && n < checkpoint + WINDOW
      requires requests[id].written == start + checkpoint
      requires track[id].phase == Writing(start + len) && track[id].sent == start + n
      modifies this
      ensures Lawful() && old(history) <= history && up
      ensures 0 <= took && n + took <= len && took <= c.taken
      ensures (lost ==> !c.saved) && (took == 0 ==> c.taken == 0)
      ensures recorded == checkpoint || recorded == n + took
      ensures n + took <= recorded + WINDOW && (n + took == recorded + WINDOW && !lost ==> n + took == len)
      ensures requests == old(requests)[id := old(requests)[id].(written := start + recorded)]
      ensures track == old(track)[id := Track(old(track)[id].charged, start + n + took,
                                             if lost then Doubtful else Writing(start + len))]
    {
      var limit := Min(len, checkpoint + WINDOW);
      took, recorded, lost := Min(c.taken, limit - n), checkpoint, false;
      Put(id, took);
      if n + took == limit && limit < len {
        var ok := Save(id, start + n + took, c.saved);
        if ok { recorded := n + took; } else { lost := true; }
      }
    }

    /** The loop of `WriteChunk`. */
    method WriteLoop(id: int, len: int, start: int, deadline: int, calls: seq<Call>)
      returns (n: int, checkpoint: int, err: WriteError)
      requires Lawful() && up && 0 <= id < |requests| && 0 < len
      requires track[id].phase == Writing(start + len) && track[id].sent == start == requests[id].written
      modifies this
      ensures Lawful() && old(history) <= history && up
      ensures 0 <= checkpoint <= n <= len
      ensures err == Expired ==> exists c :: c in calls && c.now >= deadline
      ensures err == ProgressLost ==> exists c :: c in calls && !c.saved
      ensures err in {WriteFailed, NoError, Expired, ProgressLost}
      ensures err == WriteFailed ==> exists c :: c in calls && c.error
      ensures err == NoError ==> n == len || |calls| <= n || exists c :: c in calls && c.taken == 0
      ensures requests == old(requests)[id := old(requests)[id].(written := start + checkpoint)]
      ensures track == old(track)[id := Track(old(track)[id].charged, start + n,
                                             if err == ProgressLost then Doubtful else Writing(start + len))]
    {
      n, checkpoint, err := 0, 0, NoError;
      var i := 0;
      while n < len
        invariant 0 <= checkpoint <= n <= len && n <= checkpoint + WINDOW && err == NoError
        invariant 0 <= i <= |calls| && i <= n
        invariant n == checkpoint + WINDOW ==> n == len
        invariant Lawful() && old(history) <= history && up
        invariant requests == old(requests)[id := old(requests)[id].(written := start + checkpoint)]
        invariant track == old(track)[id := Track(old(track)[id].charged, start + n, Writing(start + len))]
        decreases |calls| - i
      {
        if i >= |calls| { break; }
        var c := calls[i];
        assert c in calls;
        i := i + 1;
        if c.now >= deadline { err := Expired; break; }
        var took, lost;
        took, checkpoint, lost := Turn(id, len, start, n, checkpoint, c);
        n := n + took;
        if lost { err := ProgressLost; break; }
        if c.error || took == 0 {
          if c.error { err := WriteFailed; }
          break;
        }
      }
    }

    /** The last checkpoint of a chunk, and the way out. */
    method Finish(id: int, end: int, saved: bool, deadline: int, nowAfter: int) returns (err: WriteError)
      requires Lawful() && up && 0 <= id < |requests|
      requires track[id].phase.Writing? && requests[id].written <= end == track[id].sent
      modifies this
      ensures Lawful() && old(history) <= history && up
      ensures requests == if err == ProgressLost then old(requests)
                          else old(requests)[id := old(requests)[id].(written := end)]
      ensures track == old(track)[id := old(track)[id].(phase := if err == ProgressLost then Doubtful else Idle)]
      ensures err in {NoError, Expired, ProgressLost}
      ensures (err == ProgressLost ==> !saved) && (err == Expired <==> err != ProgressLost && nowAfter >= deadline)
    {
      err := NoError;
      if requests[id].written < end {
        var ok := Save(id, end, saved);
        if !ok { return ProgressLost; }
      }
      track := track[id := track[id].(phase := Idle)];
      Took(Action.Return(id));
      if nowAfter >= deadline {
        CloseExpiredPermissions(nowAfter);
        err := Expired;
      }
    }

    /** The transfer deadline of a response's permission. */
    function Deadline(id: int): int
      requires 0 <= id < |requests|
      reads this`requests, this`permissions
    {
      if requests[id].jti in permissions then permissions[requests[id].jti].terms.transferBy else 0
    }

    /** The response enters `WriteChunk`. */
    method Enter(id: int, len: int, now: int)
      requires Lawful() && up && 0 <= id < |requests| && MayWrite(Db(), requests[id], len, now)
      requires track[id].phase == Idle && NoWriter(View(), requests[id].key)
      modifies this`track, this`history
      ensures Lawful() && old(history) <= history
      ensures old(track)[id].sent == requests[id].written
      ensures track == old(track)[id := old(track)[id].(phase := Writing(requests[id].written + len))]
    {
      RowFacts(history, id);
      track := track[id := track[id].(phase := Writing(requests[id].written + len))];
      Took(Action.Begin(id, len, now));
    }

    /** A chunk that `MayStart` let through. */
    method PermittedChunk(id: int, len: int, now: int, calls: seq<Call>, lastSaved: bool, nowAfter: int)
      returns (n: int, err: WriteError)
      requires Lawful() && up && 0 <= id < |requests| && MayWrite(Db(), requests[id], len, now)
      requires track[id].phase == Idle && NoWriter(View(), requests[id].key)
      modifies this
      ensures Lawful() && old(history) <= history && up && |requests| == old(|requests|) && 0 <= n <= len
      ensures Explained(err, n, len, old(Deadline(id)), calls, lastSaved, nowAfter)
      ensures requests == old(requests)[id := old(requests)[id].(written := requests[id].written)]
      ensures track == old(track)[id := Track(old(track)[id].charged, old(track)[id].sent + n, track[id].phase)]
      ensures if err == ProgressLost then track[id].phase == Doubtful
              else track[id].phase == Idle && requests[id].written == old(requests)[id].written + n
    {
      var start, deadline := requests[id].written, Deadline(id);
      Enter(id, len, now);
      n, err := RunChunk(id, len, start, deadline, calls, lastSaved, nowAfter);
    }

    /** Writes a chunk that has begun, to its end. */
    method RunChunk(id: int, len: int, start: int, deadline: int, calls: seq<Call>, lastSaved: bool, nowAfter: int)
      returns (n: int, err: WriteError)
      requires Lawful() && up && 0 <= id < |requests| && 0 < len
      requires track[id].phase == Writing(start + len) && track[id].sent == start == requests[id].written
      modifies this
      ensures Lawful() && old(history) <= history && up && 0 <= n <= len
      ensures Explained(err, n, len, deadline, calls, lastSaved, nowAfter)
      ensures |requests| == old(|requests|) && requests == old(requests)[id := old(requests)[id].(written := requests[id].written)]
      ensures track == old(track)[id := Track(old(track)[id].charged, start + n, if err == ProgressLost then Doubtful else Idle)]
      ensures err != ProgressLost ==> requests[id].written == start + n
    {
      var checkpoint;
      n, checkpoint, err := WriteLoop(id, len, start, deadline, calls);
      if err != ProgressLost {
        var last := Finish(id, start + n, lastSaved, deadline, nowAfter);
        if last != NoError { err := last; }
      }
    }

    /** Writes a chunk of `len` bytes under the order and file's lock, with a checkpoint after every
        window and one at the end.  `calls` is what the callback and the store answer, in order; when
        they run out the callback takes nothing more. */
    method WriteChunk(id: int, len: int, now: int, calls: seq<Call>, lastSaved: bool, nowAfter: int)
      returns (n: int, err: WriteError)
      requires Lawful() && up && 0 <= id < |requests|
      requires track[id].phase == Idle && NoWriter(View(), requests[id].key)
      modifies this
      ensures Lawful() && old(history) <= history && up && |requests| == old(|requests|)
      ensures if old(MayWrite(Db(), requests[id], len, now))
              then 0 <= n <= len && Explained(err, n, len, old(Deadline(id)), calls, lastSaved, nowAfter)
              else n == 0 && err in {NotPermitted, Expired, BadChunk}
      ensures requests == old(requests)[id := old(requests)[id].(written := requests[id].written)]
      ensures track == old(track)[id := Track(old(track)[id].charged, old(track)[id].sent + n, track[id].phase)]
      ensures if err == ProgressLost then track[id].phase == Doubtful
              else track[id].phase == Idle && requests[id].written == old(requests)[id].written + n
    {
      n := 0;
      err := MayStart(id, len, now);
      if err == NoError {
        n, err := PermittedChunk(id, len, now, calls, lastSaved, nowAfter);
      } else if err == Expired {
        CloseExpiredPermissions(now);
      }
    }

    // ---------------------------------------------------------------- settling

    /** The tables after the unused end of a response is given back, before any receipt. */
    method Release(id: int, crash: bool, complete: bool)
      requires 0 <= id < |requests| && Canonical(Rows(serves, requests[id].key))
      requires requests[id].key.fid in files && complete == FullyCovered(Db(), requests[id].key)
      modifies this`serves, this`requests, this`permissions
      ensures Released(old(Db()), Db(), id, crash)
    {
      var r := requests[id];
      var ss := Transform(Rows(serves, r.key), Max(r.start, Keep(r, crash) + 1), r.end, -1);
      serves := serves[r.key := ss];
      requests := requests[id := r.(open := false)];
      if complete { permissions := ClosePermissions(permissions, r.key); }
    }

    /** Closes a response and queues its receipt in one transaction; a failure undoes it all. */
    method SettleTx(id: int, crash: bool, outcome: string) returns (ok: bool)
      requires 0 <= id < |requests| && requests[id].open && requests[id].key.fid in files
      requires Fit(Db(), requests[id].key)
      modifies this`serves, this`requests, this`permissions, this`outbox, this`completed
      ensures if ok then Settled(old(Db()), Db(), id, crash, outcome) else Db() == old(Db())
      ensures ok <==> crash || outcome != "complete"
                      || FullyCovered(old(Db()), old(requests)[id].key) || old(requests)[id].key in old(completed)
    {
      var k := requests[id].key;
      var complete := Full(k);
      var savedServes, savedRequests, savedPermissions := serves, requests, permissions;
      Release(id, crash, complete);
      ok := true;
      if complete || (!crash && outcome != "") {
        ServesShrink(Rows(savedServes, k), serves[k], 0, files[k.fid].size);
        ok := QueueTx(k, Outcome(outcome, complete));
        if !ok {
          serves, requests, permissions := savedServes, savedRequests, savedPermissions;
        }
      }
    }

    /** Settles a response that is still open. */
    method SettleOpen(id: int, crash: bool, outcome: string) returns (ok: bool)
      requires Lawful() && 0 <= id < |requests| && NoWriter(View(), requests[id].key)
      requires requests[id].open && requests[id].key.fid in files && Fit(Db(), requests[id].key)
      requires !crash ==> up && track[id].phase == Idle
      modifies this
      ensures Lawful() && old(history) <= history && up == old(up)
      ensures if ok then SettleStep(old(View()), View(), id, crash, outcome) else View() == old(View())
      ensures outcome != "complete" ==> ok
    {
      ghost var r := requests[id];
      ok := SettleTx(id, crash, outcome);
      if ok {
        track := track[id := track[id].(charged := Keep(r, crash))];
        Took(Action.Settle(id, crash, outcome));
      }
    }

    /** `Settle` and `RecoverRequest`, under the order and file's lock.  `saved` says whether the
        transaction commits. */
    method Settle(id: int, crash: bool, outcome: string, saved: bool) returns (ok: bool)
      requires Lawful() && 0 <= id < |requests| && NoWriter(View(), requests[id].key)
      requires !crash ==> up && track[id].phase == Idle
      modifies this
      ensures Lawful() && old(history) <= history && up == old(up)
      ensures if ok then SettleStep(old(View()), View(), id, crash, outcome) else View() == old(View())
      ensures saved && outcome != "complete" ==> ok
    {
      ok := saved;
      if !saved { return; }
      if requests[id].open {
        RowFacts(history, id);
        KeyFacts(history, requests[id].key);
        ok := SettleOpen(id, crash, outcome);
      } else {
        Took(Action.Settle(id, crash, outcome));
      }
    }

    /** Settles every open response as crashed.  The source does it in one transaction; here each
        settlement is a step of its own, which only adds runs. */
    method Recover()
      requires Lawful() && forall i :: 0 <= i < |track| ==> !track[i].phase.Writing?
      modifies this
      ensures Lawful() && old(history) <= history && up == old(up) && |requests| == old(|requests|)
      ensures forall i :: 0 <= i < |requests| ==> requests[i] == old(requests)[i].(open := false)
      ensures forall i :: 0 <= i < |track| ==> !track[i].phase.Writing?
    {
      var i := 0;
      while i < |requests|
        invariant 0 <= i <= |requests| == old(|requests|) && up == old(up)
        invariant Lawful() && old(history) <= history
        invariant forall j :: 0 <= j < |track| ==> !track[j].phase.Writing?
        invariant |track| == |requests|
        invariant forall j :: 0 <= j < |requests| ==>
          requests[j] == if j < i then old(requests)[j].(open := false) else old(requests)[j]
      {
        if requests[i].open { var ok := Settle(i, true, "", true); }
        i := i + 1;
      }
    }

    /** The process dies between two steps. */
    ghost method CrashNow()
      requires Lawful()
      modifies this`track, this`up, this`history
      ensures Lawful() && old(history) <= history && !up && |track| == old(|track|)
      ensures forall i :: 0 <= i < |track| ==> track[i] == old(track)[i].(phase := Doubtful)
    {
      track := seq(|track|, i requires 0 <= i < |track| reads this => track[i].(phase := Doubtful));
      up := false;
      Took(Action.Crash);
    }

    /** Opening the ledger after a crash: recovery first, then serving. */
    method Reopen()
      requires Lawful() && !up
      modifies this
      ensures Lawful() && old(history) <= history && up && |requests| == old(|requests|)
      ensures forall i :: 0 <= i < |requests| ==> requests[i] == old(requests)[i].(open := false)
    {
      forall i | 0 <= i < |track| ensures !track[i].phase.Writing? { RowFacts(history, i); }
      Recover();
      up := true;
      Took(Action.Restart);
    }

    method Revoke(jti: string)
      requires Lawful()
      modifies this`permissions, this`revocations, this`history
      ensures Lawful() && old(history) <= history
      ensures permissions == Transfer.Revoke(old(permissions), jti) && revocations == old(revocations) + {jti}
    {
      permissions := Transfer.Revoke(permissions, jti);
      revocations := revocations + {jti};
      Took(Action.RevokeGrant(jti));
    }

    /** Whether `FinishEmpty` accepts. */
    method IsEmptyRequest(g: Grant, now: int, offered: bool) returns (ok: bool)
      ensures ok <==> MayFinishEmpty(Db(), g, now, offered)
    {
      ok := false;
      if g.key.fid !in files || files[g.key.fid] != File(0, g.terms.sha) { return; }
      if g.key in completed || g.jti in revocations { return; }
      if now >= g.terms.startBy || now >= g.terms.transferBy { return; }
      if !RowMatches(Db(), g) || (!IsBound(Db(), g.jti) && !offered) { return; }
      ok := true;
    }

    /** The transaction of `FinishEmpty`. */
    method EmptyTx(g: Grant)
      requires g.key.fid in files && files[g.key.fid].size == 0 && Fit(Db(), g.key) && g.key !in completed
      modifies this`permissions, this`outbox, this`completed
      ensures var bound := if g.jti in old(permissions) then old(permissions) else Bind(old(permissions), g);
        var mid := old(Db()).(permissions := ClosePermissions(bound, g.key));
        Queueable(mid, g.key, "complete") && Db() == Queue(mid, g.key, "complete")
    {
      if g.jti !in permissions { permissions := Bind(permissions, g); }
      permissions := ClosePermissions(permissions, g.key);
      var ok := QueueTx(g.key, "complete");
    }

    /** A file without bytes is completed without a request. */
    method FinishEmpty(g: Grant, now: int, offered: bool) returns (ok: bool)
      requires Lawful() && up && NoWriter(View(), g.key)
      modifies this
      ensures Lawful() && old(history) <= history
      ensures if ok then FinishEmptyStep(old(View()), View(), g, now, offered) else View() == old(View())
      ensures ok <==> MayFinishEmpty(old(Db()), g, now, offered)
      ensures ok ==> g.key in completed && g.key !in old(completed)
    {
      ok := IsEmptyRequest(g, now, offered);
      if ok {
        KeyFacts(history, g.key);
        EmptyTx(g);
        Took(Action.FinishEmpty(g, now, offered));
      }
    }

    // ---------------------------------------------------------------- prepare

    /** The greatest serve count, and whether some byte at two serves was never transmitted. */
    method Survey(ss: seq<Segment>, tr: seq<Segment>) returns (most: int, exhausted: bool)
      requires Canonical(ss) && Unit(tr)
      ensures forall x :: Count(ss, x) <= most
      ensures most == 0 || exists x :: Count(ss, x) == most
      ensures exhausted <==> exists x :: Count(ss, x) == 2 && Count(tr, x) == 0
    {
      most, exhausted := 0, false;
      var i := 0;
      while i < |ss|
        invariant 0 <= i <= |ss| && 0 <= most
        invariant forall k :: 0 <= k < i ==> ss[k].c <= most
        invariant most == 0 || exists x :: Count(ss, x) == most
        invariant exhausted <==> exists k :: 0 <= k < i && ss[k].c == 2 && !Holds(tr, ss[k].a, ss[k].b)
      {
        CountAt(ss, i, ss[i].a);
        most := Max(most, ss[i].c);
        var held := Covered(tr, ss[i].a, ss[i].b);
        CoveredMeansHeld(tr, ss[i].a, ss[i].b);
        if ss[i].c == 2 && !held { exhausted := true; }
        i := i + 1;
      }
      SurveyMeans(ss, tr, most);
    }

    /** What an order may expect: where to resume, and why a download would be refused.  `refusal`
        is what the checks of the file and its offers already found. */
    method Prepare(k: Key, refusal: string) returns (ack: PrepareAck)
      requires Lawful() && (k.fid !in files ==> refusal != "")
      ensures var size := if k.fid in files then files[k.fid].size else 0;
        var tr, ss := Rows(transmitted, k), Rows(serves, k);
        && 0 <= ack.resumeOffset <= size && Holds(tr, 0, ack.resumeOffset - 1)
        && (ack.resumeOffset < size ==> Count(tr, ack.resumeOffset) == 0)
        && ack.transmittedBytes == Bytes(tr) && ack.intervalCount == |tr|
        && (forall x :: Count(ss, x) <= ack.maxServeCount) && ack.maxServeCount <= 2
      ensures refusal != "" ==> ack.refusal == refusal
      ensures refusal == "" ==> (ack.refusal == (
        if exists x :: Count(Rows(serves, k), x) == 2 && Count(Rows(transmitted, k), x) == 0 then "coverage_exhausted"
        else if k in completed || (0 < files[k.fid].size && FullyCovered(Db(), k)) then "complete"
        else ""))
      ensures ack.refusal == "" && 0 < files[k.fid].size ==>
        && ack.resumeOffset < files[k.fid].size && Count(Rows(serves, k), ack.resumeOffset) < 2
        && !Isolated(Rows(transmitted, k), ack.resumeOffset)
    {
      KeyFacts(history, k);
      var tr, ss := Rows(transmitted, k), Rows(serves, k);
      var size := if k.fid in files then files[k.fid].size else 0;
      var resume := FirstUntransmitted(tr, size);
      var bytes := CountBytes(tr);
      var most, exhausted := Survey(ss, tr);
      var answer := refusal;
      if exhausted && answer == "" { answer := "coverage_exhausted"; }
      if (k in completed || (size > 0 && bytes == size)) && answer == "" { answer := "complete"; }
      ack := PrepareAck(resume, bytes, |tr|, most, answer);
    }

    // ---------------------------------------------------------------- the door

    /** Sends bytes `from..hi - 1`, which lie in one verified block. */
    method StreamBlock(id: int, from: int, hi: int, envs: seq<ChunkEnv>, first: int)
      returns (pos: int, used: int, outcome: string, settle: bool, gone: bool)
      requires Lawful() && up && 0 <= id < |requests| && from <= hi && 0 <= first <= |envs|
      requires track[id].phase == Idle && track[id].sent == from - 1 == requests[id].written
      requires forall i :: 0 <= i < |track| ==> !track[i].phase.Writing?
      modifies this
      ensures Lawful() && old(history) <= history && up && |requests| == old(|requests|) && first <= used <= |envs|
      ensures requests == old(requests)[id := old(requests)[id].(written := requests[id].written)]
      ensures forall i :: 0 <= i < |track| ==> !track[i].phase.Writing?
      ensures from <= pos <= hi && track[id].sent == pos - 1 && (!gone ==> pos == hi && settle)
      ensures if settle then track[id].phase == Idle && requests[id].written == pos - 1 else track[id].phase == Doubtful
      ensures outcome in {"", "aborted_deadline"}
    {
      pos, used, outcome, settle, gone := from, first, "", true, false;
      while pos < hi && !gone
        invariant Lawful() && old(history) <= history && up && |requests| == old(|requests|) && first <= used <= |envs|
        invariant requests == old(requests)[id := old(requests)[id].(written := requests[id].written)]
        invariant forall i :: 0 <= i < |track| ==> !track[i].phase.Writing?
        invariant from <= pos <= hi && track[id].sent == pos - 1 && (!gone ==> settle)
        invariant if settle then track[id].phase == Idle && requests[id].written == pos - 1 else track[id].phase == Doubtful
        invariant outcome in {"", "aborted_deadline"}
        decreases if gone then 0 else 1, |envs| - used
      {
        if used == |envs| {
          gone := true;
        } else {
          var env := envs[used];
          used := used + 1;
          var n, err := WriteChunk(id, hi - pos, env.now, env.calls, env.lastSaved, env.nowAfter);
          pos := pos + n;
          if err == Expired { outcome := "aborted_deadline"; }
          if err == ProgressLost { settle := false; }
          gone := err != NoError || n == 0;
        }
      }
    }

    /** Streams the admitted range block by block.  `blockOk` says which blocks still match their
        recorded hash; `envs` is what each `WriteChunk` meets, and when they run out the buyer is gone. */
    method Stream(id: int, start: int, end: int, size: int, blockOk: int -> bool, envs: seq<ChunkEnv>)
      returns (outcome: string, settle: bool, pos: int)
      requires Lawful() && up && 0 <= id < |requests| && 0 <= start <= end < size
      requires track[id].sent == start - 1 == requests[id].written && track[id].phase == Idle
      requires forall i :: 0 <= i < |track| ==> !track[i].phase.Writing?
      modifies this
      ensures Lawful() && old(history) <= history && up && |requests| == old(|requests|)
      ensures requests == old(requests)[id := old(requests)[id].(written := requests[id].written)]
      ensures forall i :: 0 <= i < |track| ==> !track[i].phase.Writing?
      ensures track[id].sent == pos - 1 && start <= pos <= end + 1
      ensures forall x :: start <= x < pos ==> blockOk(BlockOf(x))
      ensures if settle then track[id].phase == Idle else track[id].phase == Doubtful
      ensures outcome in {"", "aborted_block_mismatch", "aborted_deadline"}
      ensures outcome == "aborted_block_mismatch" ==> pos <= end && settle && !blockOk(BlockOf(pos))
      ensures pos <= end && outcome == "" && settle ==> blockOk(BlockOf(start))
    {
      outcome, settle, pos := "", true, start;
      var index := BlockOf(start);
      if !blockOk(index) { return "aborted_block_mismatch", settle, pos; }
      var used, gone := 0, false;
      while pos <= end
        invariant Lawful() && old(history) <= history && up && |requests| == old(|requests|) && 0 <= used <= |envs|
        invariant requests == old(requests)[id := old(requests)[id].(written := requests[id].written)]
        invariant forall i :: 0 <= i < |track| ==> !track[i].phase.Writing?
        invariant start <= pos <= end + 1 && track[id].sent == pos - 1 == requests[id].written
        invariant track[id].phase == Idle && settle && outcome == ""
        invariant forall x :: start <= x < pos ==> blockOk(BlockOf(x))
        invariant index * WINDOW <= pos <= index * WINDOW + WINDOW && blockOk(index)
      {
        if pos >= index * WINDOW + WINDOW {
          index := BlockOf(pos);
          if !blockOk(index) { return "aborted_block_mismatch", settle, pos; }
        }
        ghost var was := pos;
        var hi := Min(Min(index * WINDOW + WINDOW, size), end + 1);
        pos, used, outcome, settle, gone := StreamBlock(id, pos, hi, envs, used);
        SameBlock(index, was, pos);
        if gone { return; }
        outcome := "";
      }
    }

    /** One download: reserve, stream, and settle; a response whose checkpoint failed is settled as a
        crash instead.  `settled` says whether the last transaction commits. */
    method Download(g: Grant, start: int, end: int, now: int, offered: bool, blockOk: int -> bool,
                    envs: seq<ChunkEnv>, settled: bool)
      returns (v: Verdict, id: int, pos: int)
      requires Lawful() && up && g.key.fid in files && 0 <= start <= end < files[g.key.fid].size
      requires forall i :: 0 <= i < |track| ==> !track[i].phase.Writing?
      modifies this
      ensures Lawful() && old(history) <= history && up
      ensures Answers(old(Db()), g, start, end, now, offered, v)
      ensures v.Refused? ==> Db() == old(Db()) && net == old(net)
      ensures v.Admitted? ==> id == old(|requests|) < |requests| && (settled ==> !requests[id].open)
      ensures v.Admitted? ==> start <= pos <= v.end + 1 && track[id].sent == pos - 1
      ensures v.Admitted? && settled ==> track[id].charged == Keep(requests[id], track[id].phase == Doubtful)
      ensures v.Admitted? ==> forall x :: start <= x < pos ==> blockOk(BlockOf(x))
      ensures forall i :: 0 <= i < |track| ==> !track[i].phase.Writing?
    {
      pos := start;
      v, id := Reserve(g, start, end, now, offered);
      if v.Admitted? { pos := Answer(id, start, v.end, files[g.key.fid].size, blockOk, envs, settled); }
    }

    /** Streams an admitted response and settles it. */
    method Answer(id: int, start: int, end: int, size: int, blockOk: int -> bool, envs: seq<ChunkEnv>, settled: bool)
      returns (pos: int)
      requires Lawful() && up && 0 <= id < |requests| && 0 <= start <= end < size && requests[id].open
      requires track[id].sent == start - 1 == requests[id].written && track[id].phase == Idle
      requires forall i :: 0 <= i < |track| ==> !track[i].phase.Writing?
      modifies this
      ensures Lawful() && old(history) <= history && up && |requests| == old(|requests|)
      ensures start <= pos <= end + 1 && track[id].sent == pos - 1
      ensures forall x :: start <= x < pos ==> blockOk(BlockOf(x))
      ensures settled ==> !requests[id].open && track[id].charged == Keep(requests[id], track[id].phase == Doubtful)
      ensures forall i :: 0 <= i < |track| ==> !track[i].phase.Writing?
    {
      var outcome, settle;
      outcome, settle, pos := Stream(id, start, end, size, blockOk, envs);
      var ok := Settle(id, !settle, outcome, settled);
    }
  }

  lemma SurveyMeans(ss: seq<Segment>, tr: seq<Segment>, most: int)
    requires Canonical(ss) && Unit(tr) && 0 <= most && forall k :: 0 <= k < |ss| ==> ss[k].c <= most
    ensures forall x :: Count(ss, x) <= most
    ensures (exists k :: 0 <= k < |ss| && ss[k].c == 2 && !Holds(tr, ss[k].a, ss[k].b))
            <==> exists x :: Count(ss, x) == 2 && Count(tr, x) == 0
  {
    forall x ensures Count(ss, x) <= most { if Count(ss, x) != 0 { var k := CountFind(ss, x); } }
    if k :| 0 <= k < |ss| && ss[k].c == 2 && !Holds(tr, ss[k].a, ss[k].b) {
      var x :| ss[k].a <= x <= ss[k].b && Count(tr, x) <= 0;
      CountAt(ss, k, x);
      CountNonNegative(tr, x);
    }
    if x :| Count(ss, x) == 2 && Count(tr, x) == 0 {
      var k := CountFind(ss, x);
    }
  }

  /** The block a byte lies in. */
  function BlockOf(x: int): (index: int)
    ensures index * WINDOW <= x < index * WINDOW + WINDOW
  {
    x / WINDOW
  }

  lemma SameBlock(index: int, from: int, to: int)
    requires index * WINDOW <= from <= to <= index * WINDOW + WINDOW
    ensures forall x :: from <= x < to ==> BlockOf(x) == index
  {
  }

  lemma ServesShrink(s: seq<Segment>, t: seq<Segment>, lo: int, hi: int)
    requires Canonical(s) && Canonical(t) && Within(s, lo, hi)
    requires forall x :: Count(t, x) <= Max(0, Count(s, x))
    ensures Within(t, lo, hi)
  {
    forall x | 0 < Count(t, x) ensures lo <= x < hi { var i := CountFind(s, x); }
    WithinFromCounts(t, lo, hi);
  }
}
