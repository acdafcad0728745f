/** The buyer transfer ledger as a state machine.

    `Store` is what the database holds; a transaction is one step, and a transaction that fails
    leaves the store as it was.  `World` adds what no table records: how far each response really
    got on the network, which of its bytes it is charged for, and which writer is inside
    `WriteChunk`.  Any number of responses interleave; a crash may fall between any two steps. */
module Transfer {
  import opened Segments
  import opened Coverage
  import opened Counting

  /** One inventory block, 8 MiB: the checkpoint window. */
  const WINDOW := 8 * 1024 * 1024

  const MAX_INTERVALS := 1024

  datatype Key = Key(oid: string, fid: string)

  datatype PermState = Issued | Bound | Closed | Revoked

  datatype Terms = Terms(sha: string, startBy: int, transferBy: int, resumeOffset: int)

  /** The signed permission a buyer presents. */
  datatype Grant = Grant(jti: string, key: Key, terms: Terms)

  /** A row of `permissions`. */
  datatype Permission = Permission(key: Key, terms: Terms, state: PermState)

  /** A row of `requests`; `key` is that of its permission row, whose order and file never change. */
  datatype Request = Request(jti: string, key: Key, start: int, end: int, written: int, open: bool, isolated: bool)

  datatype File = File(size: int, sha: string)

  datatype Receipt = Receipt(key: Key, outcome: string, size: int, transmitted: seq<Segment>,
                             transmittedBytes: int, maxServesReached: int)

  datatype Store = Store(files: map<string, File>,
                         serves: map<Key, seq<Segment>>,
                         transmitted: map<Key, seq<Segment>>,
                         requests: seq<Request>,
                         permissions: map<string, Permission>,
                         revocations: set<string>,
                         completed: set<Key>,
                         outbox: seq<Receipt>)

  /** Where a response stands: between chunks, inside `WriteChunk` up to a byte, or with a checkpoint
      that may have failed.  After a crash every response is in doubt. */
  datatype Phase = Idle | Writing(upto: int) | Doubtful

  /** `charged`: the last byte the response counts as served.  `sent`: the last byte it really wrote. */
  datatype Track = Track(charged: int, sent: int, phase: Phase)

  /** Bytes `lo..hi` of one order and file handed to the network. */
  datatype NetWrite = NetWrite(key: Key, lo: int, hi: int)

  datatype World = World(db: Store, track: seq<Track>, net: seq<NetWrite>, up: bool)

  datatype Error = ErrClosed | ErrDeadline | ErrInvalid | ErrExhausted | ErrFragmented | ErrNoRow

  datatype Verdict = Refused(error: Error) | Admitted(end: int, isolated: bool)

  function Rows(m: map<Key, seq<Segment>>, k: Key): seq<Segment>
  {
    if k in m then m[k] else []
  }

  // ------------------------------------------------------------------ transactions

  /** The segment list of `k` is rewritten with `delta` more on `a..b`; other keys are untouched. */
  ghost predicate Rewritten(m: map<Key, seq<Segment>>, m': map<Key, seq<Segment>>, k: Key, a: int, b: int, delta: int)
  {
    && k in m' && m' == m[k := m'[k]]
    && Canonical(m'[k])
    && forall x :: Count(m'[k], x) == Shifted(Count(Rows(m, k), x), x, a, b, delta)
  }

  /** Bytes `a..b` of `k` become transmitted. */
  ghost predicate Marked(m: map<Key, seq<Segment>>, m': map<Key, seq<Segment>>, k: Key, a: int, b: int)
  {
    && k in m' && m' == m[k := m'[k]]
    && Unit(m'[k])
    && forall x :: Count(m'[k], x) == if a <= x <= b || 0 < Count(Rows(m, k), x) then 1 else 0
  }

  ghost predicate FullyCovered(db: Store, k: Key)
    requires k.fid in db.files
  {
    var size := db.files[k.fid].size;
    size == 0 || Holds(Rows(db.transmitted, k), 0, size - 1)
  }

  function ClosePermissions(m: map<string, Permission>, k: Key): map<string, Permission>
  {
    map j | j in m :: if m[j].key == k && (m[j].state == Issued || m[j].state == Bound)
                      then m[j].(state := Closed) else m[j]
  }

  function CloseExpired(m: map<string, Permission>, now: int): map<string, Permission>
  {
    map j | j in m :: if (m[j].state == Issued || m[j].state == Bound) && m[j].terms.transferBy <= now
                      then m[j].(state := Closed) else m[j]
  }

  function Revoke(m: map<string, Permission>, jti: string): map<string, Permission>
  {
    if jti in m then m[jti := m[jti].(state := Revoked)] else m
  }

  /** Binding on first use, with the permission row the grant describes. */
  function Bind(m: map<string, Permission>, g: Grant): map<string, Permission>
  {
    if g.jti in m then m[g.jti := m[g.jti].(state := Bound)]
    else m[g.jti := Permission(g.key, g.terms, Bound)]
  }

  /** The receipt for an order and file: its intervals, their bytes, and the bytes at two serves
      that were never recorded as transmitted. */
  ghost function ReceiptFor(db: Store, k: Key, outcome: string): Receipt
    requires k.fid in db.files
  {
    var tr := Rows(db.transmitted, k);
    var size := db.files[k.fid].size;
    Receipt(k, outcome, size, tr, Bytes(tr), |Spent(Rows(db.serves, k), tr, 0, size)|)
  }

  function Outcome(outcome: string, complete: bool): string
  {
    if complete then "complete" else if outcome == "" then "in_progress" else outcome
  }

  /** A complete receipt whose bytes fall short is an error that undoes the transaction. */
  ghost predicate Queueable(db: Store, k: Key, outcome: string)
  {
    k.fid in db.files
    && (outcome == "complete" && k !in db.completed ==> Bytes(Rows(db.transmitted, k)) == db.files[k.fid].size)
  }

  ghost function Queue(db: Store, k: Key, outcome: string): Store
    requires Queueable(db, k, outcome)
  {
    if outcome == "complete" && k in db.completed then db
    else db.(outbox := db.outbox + [ReceiptFor(db, k, outcome)],
             completed := if outcome == "complete" then db.completed + {k} else db.completed)
  }

  // ------------------------------------------------------------------ reserve

  function OpenIsolatedFlags(rs: seq<Request>, k: Key): seq<bool>
  {
    seq(|rs|, i requires 0 <= i < |rs| => rs[i].key == k && rs[i].open && rs[i].isolated)
  }

  /** The last byte a request may run to: it stops before the first byte already at two serves. */
  ghost predicate Clipped(ss: seq<Segment>, start: int, end: int, upto: int)
  {
    && start <= upto <= end
    && (forall x :: start <= x <= upto ==> Count(ss, x) != 2)
    && (upto < end ==> Count(ss, upto + 1) == 2)
  }

  ghost predicate Isolated(tr: seq<Segment>, start: int)
  {
    start > 0 && Count(tr, start - 1) == 0
  }

  /** Whether the stored permission row lets this grant through to the deadlines. */
  predicate RowAccepts(db: Store, g: Grant)
  {
    g.jti in db.permissions ==>
      var p := db.permissions[g.jti];
      p.key == g.key && p.terms == g.terms && (p.state == Bound || p.state == Issued)
  }

  predicate IsBound(db: Store, jti: string)
  {
    jti in db.permissions && db.permissions[jti].state == Bound
  }

  /** The checks before the interval work, in their order. */
  ghost predicate GateFails(db: Store, g: Grant, now: int, e: Error)
  {
    if !RowAccepts(db, g) then e == ErrClosed
    else if now >= g.terms.transferBy || (!IsBound(db, g.jti) && now >= g.terms.startBy) then e == ErrDeadline
    else if g.jti in db.revocations || g.key in db.completed then e == ErrClosed
    else if g.key.fid !in db.files then e == ErrNoRow
    else FullyCovered(db, g.key) && e == ErrClosed
  }

  /** The answer of `Reserve`: `offered` says the offer row is open with the listing key class. */
  ghost predicate Answers(db: Store, g: Grant, start: int, end: int, now: int, offered: bool, v: Verdict)
  {
    var ss, tr := Rows(db.serves, g.key), Rows(db.transmitted, g.key);
    var isolated := Isolated(tr, start);
    var crowded := |tr| + Tally(OpenIsolatedFlags(db.requests, g.key)) + 1 > MAX_INTERVALS;
    if exists e :: GateFails(db, g, now, e) then v.Refused? && GateFails(db, g, now, v.error)
    else if start < 0 || end < start then v == Refused(ErrInvalid)
    else if Count(ss, start) == 2 then v == Refused(ErrExhausted)
    else if isolated && crowded then v == Refused(ErrFragmented)
    else if !IsBound(db, g.jti) && !offered then v == Refused(ErrClosed)
    else v.Admitted? && v.isolated == isolated && Clipped(ss, start, end, v.end)
  }

  ghost predicate Reserved(db: Store, db': Store, g: Grant, start: int, v: Verdict)
    requires v.Admitted?
  {
    && Rewritten(db.serves, db'.serves, g.key, start, v.end, 1)
    && db' == db.(serves := db'.serves,
                  permissions := if IsBound(db, g.jti) then db.permissions else Bind(db.permissions, g),
                  requests := db.requests + [Request(g.jti, g.key, start, v.end, start - 1, true, v.isolated)])
  }

  /** The door asks only for ranges inside the file. */
  ghost predicate ReserveStep(w: World, w': World, g: Grant, start: int, end: int, now: int, offered: bool, v: Verdict)
  {
    && w.up && Answers(w.db, g, start, end, now, offered, v)
    && (g.key.fid in w.db.files ==> 0 <= end < w.db.files[g.key.fid].size || end < start)
    && if v.Refused? then w' == w
       else Reserved(w.db, w'.db, g, start, v)
            && w' == w.(db := w'.db, track := w.track + [Track(v.end, start - 1, Idle)])
  }

  // ------------------------------------------------------------------ writing

  /** No response of `k` is inside `WriteChunk`: the order and file's lock is free. */
  ghost predicate NoWriter(w: World, k: Key)
    requires |w.track| == |w.db.requests|
  {
    forall i :: 0 <= i < |w.track| && w.db.requests[i].key == k ==> !w.track[i].phase.Writing?
  }

  ghost predicate Valid(w: World, id: int)
  {
    |w.track| == |w.db.requests| && 0 <= id < |w.track|
  }

  /** The checks of `WriteChunk` before it writes. */
  ghost predicate MayWrite(db: Store, r: Request, len: int, now: int)
  {
    && r.open && IsBound(db, r.jti) && now < db.permissions[r.jti].terms.transferBy
    && r.key !in db.completed && r.key.fid in db.files && !FullyCovered(db, r.key)
    && 0 < len && r.written + len <= r.end
  }

  ghost predicate BeginStep(w: World, w': World, id: int, len: int, now: int)
  {
    Valid(w, id) && NoWriter(w, w.db.requests[id].key) && Enters(w, w', id, len, now)
  }

  ghost predicate Enters(w: World, w': World, id: int, len: int, now: int)
    requires Valid(w, id)
  {
    && w.up && w.track[id].phase == Idle && MayWrite(w.db, w.db.requests[id], len, now)
    && w' == w.(track := w.track[id := w.track[id].(phase := Writing(w.db.requests[id].written + len))])
  }

  /** The network takes `n` more bytes; never past the chunk nor a window behind the checkpoint. */
  ghost predicate SendStep(w: World, w': World, id: int, n: int)
  {
    && w.up && Valid(w, id) && w.track[id].phase.Writing? && 0 <= n
    && var t, r := w.track[id], w.db.requests[id];
       && t.sent + n <= t.phase.upto && t.sent + n <= r.written + WINDOW
       && w' == w.(track := w.track[id := t.(sent := t.sent + n)],
                   net := w.net + [NetWrite(r.key, t.sent + 1, t.sent + n)])
  }

  /** `Progress`: the store learns how far the response got, and a receipt is queued. */
  ghost predicate Progressed(db: Store, db': Store, id: int, written: int)
    requires 0 <= id < |db.requests|
  {
    var r := db.requests[id];
    var mid := db.(transmitted := db'.transmitted, requests := db.requests[id := r.(written := written)]);
    && r.open && r.written < written <= r.end && r.key.fid in db.files
    && Marked(db.transmitted, db'.transmitted, r.key, r.written + 1, written)
    && Queueable(mid, r.key, "in_progress")
    && db' == Queue(mid, r.key, "in_progress")
  }

  ghost predicate CheckpointStep(w: World, w': World, id: int)
  {
    && w.up && Valid(w, id) && w.track[id].phase.Writing?
    && Progressed(w.db, w'.db, id, w.track[id].sent)
    && w' == w.(db := w'.db)
  }

  /** `WriteChunk` returns with everything it wrote checkpointed. */
  ghost predicate ReturnStep(w: World, w': World, id: int)
  {
    && w.up && Valid(w, id) && w.track[id].phase.Writing? && w.track[id].sent == w.db.requests[id].written
    && w' == w.(track := w.track[id := w.track[id].(phase := Idle)])
  }

  /** A checkpoint failed, or may have: the door will settle this response as if it had crashed. */
  ghost predicate DoubtStep(w: World, w': World, id: int)
  {
    && Valid(w, id) && w' == w.(track := w.track[id := w.track[id].(phase := Doubtful)])
  }

  // ------------------------------------------------------------------ settling

  function Keep(r: Request, crash: bool): int
  {
    if crash then Min(r.end, r.written + WINDOW) else r.written
  }

  /** Everything `settle` does to the store before it queues a receipt. */
  ghost predicate Released(db: Store, mid: Store, id: int, crash: bool)
    requires 0 <= id < |db.requests| && db.requests[id].key.fid in db.files
  {
    var r := db.requests[id];
    && Rewritten(db.serves, mid.serves, r.key, Max(r.start, Keep(r, crash) + 1), r.end, -1)
    && mid == db.(serves := mid.serves, requests := db.requests[id := r.(open := false)],
                  permissions := if FullyCovered(db, r.key) then ClosePermissions(db.permissions, r.key)
                                 else db.permissions)
  }

  ghost predicate Settled(db: Store, db': Store, id: int, crash: bool, outcome: string)
    requires 0 <= id < |db.requests|
  {
    var r := db.requests[id];
    if !r.open then db' == db
    else
      && r.key.fid in db.files
      && var complete := FullyCovered(db, r.key);
         var mid := db'.(outbox := db.outbox, completed := db.completed);
         && Released(db, mid, id, crash)
         && if complete || (!crash && outcome != "")
            then Queueable(mid, r.key, Outcome(outcome, complete)) && db' == Queue(mid, r.key, Outcome(outcome, complete))
            else db' == mid
  }

  /** An ordinary settlement is made by the door for a response whose checkpoints all succeeded; a
      crash settlement for any other.  Both hold the order and file's lock. */
  ghost predicate SettleStep(w: World, w': World, id: int, crash: bool, outcome: string)
  {
    Valid(w, id) && NoWriter(w, w.db.requests[id].key) && Closes(w, w', id, crash, outcome)
  }

  ghost predicate Closes(w: World, w': World, id: int, crash: bool, outcome: string)
    requires Valid(w, id)
  {
    && (!crash ==> w.up && w.track[id].phase == Idle)
    && Settled(w.db, w'.db, id, crash, outcome)
    && var r := w.db.requests[id];
       w' == w.(db := w'.db,
                track := if r.open then w.track[id := w.track[id].(charged := Keep(r, crash))] else w.track)
  }

  // ------------------------------------------------------------------ the rest

  /** A grant may complete a file without bytes. */
  predicate MayFinishEmpty(db: Store, g: Grant, now: int, offered: bool)
  {
    && g.key.fid in db.files && db.files[g.key.fid] == File(0, g.terms.sha)
    && g.key !in db.completed && g.jti !in db.revocations
    && now < g.terms.startBy && now < g.terms.transferBy
    && RowMatches(db, g) && (!IsBound(db, g.jti) ==> offered)
  }

  /** A file without bytes is completed without a request. */
  ghost predicate FinishEmptyStep(w: World, w': World, g: Grant, now: int, offered: bool)
  {
    Valid0(w) && NoWriter(w, g.key) && Completes(w, w', g, now, offered)
  }

  ghost predicate Completes(w: World, w': World, g: Grant, now: int, offered: bool)
  {
    var db := w.db;
    && w.up && MayFinishEmpty(db, g, now, offered)
    && var bound := if g.jti in db.permissions then db.permissions else Bind(db.permissions, g);
       var mid := db.(permissions := ClosePermissions(bound, g.key));
       && Queueable(mid, g.key, "complete")
       && w' == w.(db := Queue(mid, g.key, "complete"))
  }

  ghost predicate Valid0(w: World) { |w.track| == |w.db.requests| }

  predicate RowMatches(db: Store, g: Grant)
  {
    g.jti in db.permissions ==>
      var p := db.permissions[g.jti];
      p.key == g.key && p.terms.sha == g.terms.sha && (p.state == Bound || p.state == Issued)
  }

  ghost predicate RevokeStep(w: World, w': World, jti: string)
  {
    w' == w.(db := w.db.(permissions := Revoke(w.db.permissions, jti), revocations := w.db.revocations + {jti}))
  }

  ghost predicate ExpireStep(w: World, w': World, now: int)
  {
    w' == w.(db := w.db.(permissions := CloseExpired(w.db.permissions, now)))
  }

  /** The process dies: the store stays, everything else is forgotten. */
  ghost predicate CrashStep(w: World, w': World)
  {
    && w' == w.(track := w'.track, up := false) && |w'.track| == |w.track|
    && forall i :: 0 <= i < |w.track| ==> w'.track[i] == w.track[i].(phase := Doubtful)
  }

  /** Serving resumes once recovery has settled every open request. */
  ghost predicate RestartStep(w: World, w': World)
  {
    w' == w.(up := true) && forall i :: 0 <= i < |w.db.requests| ==> !w.db.requests[i].open
  }

  datatype Action =
    | Reserve(g: Grant, start: int, end: int, now: int, offered: bool, v: Verdict)
    | Begin(id: int, len: int, now: int)
    | Send(id: int, n: int)
    | Checkpoint(id: int)
    | Return(id: int)
    | Doubt(id: int)
    | Settle(id: int, crash: bool, outcome: string)
    | FinishEmpty(g: Grant, now: int, offered: bool)
    | RevokeGrant(jti: string)
    | Expire(now: int)
    | Crash
    | Restart
    | Rollback

  ghost predicate Does(w: World, w': World, a: Action)
  {
    match a
    case Reserve(g, start, end, now, offered, v) => ReserveStep(w, w', g, start, end, now, offered, v)
    case Begin(id, len, now) => BeginStep(w, w', id, len, now)
    case Send(id, n) => SendStep(w, w', id, n)
    case Checkpoint(id) => CheckpointStep(w, w', id)
    case Return(id) => ReturnStep(w, w', id)
    case Doubt(id) => DoubtStep(w, w', id)
    case Settle(id, crash, outcome) => SettleStep(w, w', id, crash, outcome)
    case FinishEmpty(g, now, offered) => FinishEmptyStep(w, w', g, now, offered)
    case RevokeGrant(jti) => RevokeStep(w, w', jti)
    case Expire(now) => ExpireStep(w, w', now)
    case Crash => CrashStep(w, w')
    case Restart => RestartStep(w, w')
    case Rollback => w' == w
  }

  ghost predicate Step(w: World, w': World)
  {
    exists a :: Does(w, w', a)
  }

  ghost predicate Initial(w: World)
  {
    && w.db == Store(w.db.files, map[], map[], [], map[], {}, {}, [])
    && (forall f :: f in w.db.files ==> 0 <= w.db.files[f].size)
    && w.track == [] && w.net == [] && w.up
  }

  /** A run: every world follows from the one before by a step. */
  ghost predicate IsRun(run: seq<World>)
  {
    run != [] && forall i :: 0 <= i < |run| - 1 ==> Follows(run, i)
  }

  ghost predicate Follows(run: seq<World>, i: int)
    requires 0 <= i < |run| - 1
  {
    Step(run[i], run[i + 1])
  }

  // ------------------------------------------------------------------ how often a byte was sent

  function SentFlags(net: seq<NetWrite>, k: Key, x: int): seq<bool>
  {
    seq(|net|, i requires 0 <= i < |net| => net[i].key == k && net[i].lo <= x <= net[i].hi)
  }

  /** How many times byte `x` of `k` was handed to the network. */
  function TimesSent(net: seq<NetWrite>, k: Key, x: int): nat
  {
    Tally(SentFlags(net, k, x))
  }
}
