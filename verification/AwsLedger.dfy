/** One invocation's operations on the AWS verifier's store.  Between any two of its reads and writes
    other invocations may take any number of steps: `Others` is what they make of the store.
    `history` is the run of all steps so far; every operation is proved to add only steps of
    `AwsModel`, so its optimistic reads are as good as atomic ones. */
module AwsLedger {
  import opened AwsModel

  type Others = Store -> Store

  /** Other invocations only take steps. */
  ghost predicate Lawful(o: Others)
  {
    forall s :: Inv(s) ==> Reaches(s, o(s))
  }

  /** What becomes of a write: answered, lost before it took effect, or its answer lost. */
  datatype Reply = Answered | Dropped | AnswerLost

  /** One attempt: what happens after the first read, after the second, and to the write. */
  datatype Attempt = Attempt(afterFirst: Others, afterSecond: Others, reply: Reply)

  ghost predicate LawfulAttempt(a: Attempt)
  {
    Lawful(a.afterFirst) && Lawful(a.afterSecond)
  }

  /** An attempt no other invocation and no lost message disturbs. */
  ghost predicate Undisturbed(a: Attempt)
  {
    a.reply == Answered && forall s :: a.afterFirst(s) == s && a.afterSecond(s) == s
  }

  /** The specification is on record with this very token and hash. */
  predicate KnownAs(s: Store, j: Job)
  {
    j.spec in s.records && s.records[j.spec].job.token == j.token && s.records[j.spec].job.specHash == j.specHash
  }

  datatype Admittance = Fresh | Known | Refused

  /** Over one run, a specification, nonce or authorization is freshly admitted at one step only. */
  lemma FreshOnce(run: seq<Store>, a: nat, b: nat, j: Job, k: Job, at: int, at': int, pickup: int, pickup': int)
    requires IsRun(run) && run[0] == EmptyStore && a < b < |run| - 1
    requires AdmitStep(run[a], run[a + 1], j, at, pickup) && AdmitStep(run[b], run[b + 1], k, at', pickup')
    ensures j.spec != k.spec && j.nonce != k.nonce && j.authorization != k.authorization
  {
    LaterStore(run, a + 1, b);
    assert j.spec in run[a + 1].records;
  }

  lemma LaterStore(run: seq<Store>, i: nat, j: nat)
    requires IsRun(run) && run[0] == EmptyStore && i <= j < |run|
    ensures Inv(run[i]) && Inv(run[j]) && Evolves(run[i], run[j])
  {
    EmptyHolds();
    RunKeeps(run, i);
    RunKeeps(run, j);
    TailRun(run, i);
    RunKeeps(run[i..], j - i);
  }

  /** What a record read at one time says of any later time: its job and pickup still hold, once
      settled it is final, and a committed descriptor still has all its chunks. */
  lemma ReadHolds(run: seq<Store>, i: nat, j: nat, r: Record)
    requires IsRun(run) && run[0] == EmptyStore && i <= j < |run|
    requires r.job.spec in run[i].records && run[i].records[r.job.spec] == r
    ensures r.job.spec != "" && r.job.spec in run[j].records && Later(r, run[j].records[r.job.spec])
    ensures r.state == Committed ==>
      && r.hash.Digest? && 0 < r.length == |r.hash.of| <= MAX_REPORT && r.chunks == ChunkCount(r.length)
      && forall n :: 0 <= n < r.chunks ==>
           ChunkKey(r.job.spec, r.hash, n) in run[j].chunks
           && run[j].chunks[ChunkKey(r.job.spec, r.hash, n)] == Slice(r.hash.of, n)
  {
    LaterStore(run, i, j);
    if r.state == Committed { assert CustodyOf(run[i], r.job.spec); }
  }

  /** A chunk, once stored, stays, and is the slice its key names. */
  lemma ChunkHolds(run: seq<Store>, i: nat, k: ChunkKey)
    requires IsRun(run) && run[0] == EmptyStore && i < |run|
    ensures k in run[i].chunks ==> k in run[|run| - 1].chunks
    ensures k in run[|run| - 1].chunks ==>
      k.hash.Digest? && 0 <= k.n < ChunkCount(|k.hash.of|) && run[|run| - 1].chunks[k] == Slice(k.hash.of, k.n)
  {
    LaterStore(run, i, |run| - 1);
  }

  lemma ChunksHold(run: seq<Store>, i: nat, spec: string, hash: Hash, count: int)
    requires IsRun(run) && run[0] == EmptyStore && i < |run| && ChunksPresent(run[i], spec, hash, count)
    ensures ChunksPresent(run[|run| - 1], spec, hash, count)
  {
    forall n | 0 <= n < count ensures ChunkKey(spec, hash, n) in run[|run| - 1].chunks {
      ChunkHolds(run, i, ChunkKey(spec, hash, n));
    }
  }

  lemma RunExtends(run: seq<Store>, s: Store, a: Action)
    requires IsRun(run) && Does(run[|run| - 1], s, a)
    ensures IsRun(run + [s])
  {
    var longer := run + [s];
    forall i | 0 <= i < |longer| - 1 ensures Follows(longer, i) {
      if i < |run| - 1 { assert Follows(run, i); } else { assert Step(run[i], s); }
    }
  }

  lemma RunsJoin(a: seq<Store>, b: seq<Store>)
    requires IsRun(a) && IsRun(b) && a[|a| - 1] == b[0]
    ensures IsRun(a + b[1..]) && (a + b[1..])[|a + b[1..]| - 1] == b[|b| - 1]
  {
    var run := a + b[1..];
    forall i | 0 <= i < |run| - 1 ensures Follows(run, i) {
      if i < |a| - 1 { assert Follows(a, i); } else { assert Follows(b, i - (|a| - 1)); }
    }
  }

  /** What others do to the last store of a run goes on with it. */
  lemma OthersRun(run: seq<Store>, o: Others) returns (longer: seq<Store>)
    requires IsRun(run) && run[0] == EmptyStore && Lawful(o)
    ensures IsRun(longer) && run <= longer && longer[|longer| - 1] == o(run[|run| - 1])
  {
    var last := run[|run| - 1];
    LaterStore(run, 0, |run| - 1);
    assert Reaches(last, o(last));
    var more :| IsRun(more) && more[0] == last && more[|more| - 1] == o(last);
    RunsJoin(run, more);
    longer := run + more[1..];
  }

  /** The version stored is the one read: the clock is the one read, and so is the store's future. */
  lemma Unmoved(run: seq<Store>, i: nat)
    requires IsRun(run) && run[0] == EmptyStore && i < |run|
    requires var now, seen := run[|run| - 1].clock, run[i].clock;
      if seen.Some? then now.Some? && now.value.version == seen.value.version else now.None?
    ensures run[|run| - 1].clock == run[i].clock
  {
    LaterStore(run, i, |run| - 1);
  }

  lemma SliceJoins(body: Bytes, n: int)
    requires 0 <= n < ChunkCount(|body|)
    ensures body[..Min((n + 1) * CHUNK, |body|)] == body[..Min(n * CHUNK, |body|)] + Slice(body, n)
    ensures |Slice(body, n)| <= CHUNK
  {
  }

  class Ledger {
    var store: Store
    ghost var history: seq<Store>

    /** The store is where a run from the empty one has led. */
    ghost predicate Sound()
      reads this
    {
      IsRun(history) && history[0] == EmptyStore && history[|history| - 1] == store
    }

    /** The record `r` was read when the history had length `seen + 1`. */
    ghost predicate ReadAt(seen: nat, r: Record)
      reads this
    {
      seen < |history| && r.job.spec in history[seen].records && history[seen].records[r.job.spec] == r
    }

    constructor ()
      ensures Sound() && history == [EmptyStore]
    {
      store, history := EmptyStore, [EmptyStore];
    }

    ghost method Took(a: Action)
      requires IsRun(history) && history[0] == EmptyStore && Does(history[|history| - 1], store, a)
      modifies this`history
      ensures Sound() && history == old(history) + [store]
    {
      RunExtends(history, store, a);
      history := history + [store];
    }

    /** Other invocations run. */
    method Yield(o: Others)
      requires Sound() && Lawful(o)
      modifies this
      ensures Sound() && old(history) <= history && store == o(old(store))
    {
      ghost var longer := OthersRun(history, o);
      store := o(store);
      history := longer;
    }

    /** The condition of a clock write: the version read is still the stored one. */
    predicate ClockUnmoved(seen: Option<Clock>)
      reads this
    {
      if seen.Some? then store.clock.Some? && store.clock.value.version == seen.value.version else store.clock.None?
    }

    // ---------------------------------------------------------------- observe

    /** One attempt of `Observe`: 0 done, 1 refused, 2 try again. */
    method ObserveOnce(at: int, a: Attempt) returns (result: int)
      requires Sound() && LawfulAttempt(a)
      modifies this
      ensures Sound() && old(history) <= history
      ensures result == 0 ==> at <= ClockOf(store).last
      ensures result == 1 <==> ClockOf(old(store)).last > at + CLOCK_SKEW
      ensures 0 <= result <= 2 && (Undisturbed(a) ==> result != 2)
    {
      var seen, c := store.clock, ClockOf(store);
      if c.last > at + CLOCK_SKEW { return 1; }
      Yield(a.afterFirst);
      if a.reply == Dropped || !ClockUnmoved(seen) { return 2; }
      Unmoved(history, |old(history)| - 1);
      store := store.(clock := Some(Clock(Max(c.last, at), c.version + 1, c.active)));
      Took(Action.Observe(at));
      result := if a.reply == Answered then 0 else 2;
    }

    /** Raises the clock's high-water mark to `at`, in at most five attempts; undisturbed, unless the
        mark is too far ahead of `at`. */
    method Observe(at: int, attempts: seq<Attempt>) returns (ok: bool)
      requires Sound() && |attempts| == 5 && forall a :: a in attempts ==> LawfulAttempt(a)
      modifies this
      ensures Sound() && old(history) <= history
      ensures ok ==> at <= ClockOf(store).last
      ensures Undisturbed(attempts[0]) ==> (ok <==> ClockOf(old(store)).last <= at + CLOCK_SKEW)
    {
      var retry := 0;
      while retry < 5
        invariant 0 <= retry <= 5 && Sound() && old(history) <= history
        invariant retry == 0 ==> store == old(store)
        invariant 0 < retry ==> !Undisturbed(attempts[0])
      {
        var result := ObserveOnce(at, attempts[retry]);
        if result != 2 { return result == 0; }
        retry := retry + 1;
      }
      ok := false;
    }

    // ---------------------------------------------------------------- admit

    /** The transaction of an admission, on a clock found unmoved. */
    method AdmitTx(j: Job, at: int, pickup: int, c: Clock) returns (done: bool)
      requires Sound() && j.spec != "" && c == ClockOf(store)
      requires c.last <= at + CLOCK_SKEW && c.active == "" && pickup <= at
      modifies this
      ensures Sound()
      ensures done <==> Admissible(old(store), j, at, pickup)
      ensures if done then history == old(history) + [store] && AdmitStep(old(store), store, j, at, pickup)
              else store == old(store) && history == old(history)
    {
      done := false;
      if j.nonce in store.nonces || j.authorization in store.authorizations || j.spec in store.records { return; }
      var count := DailyCount(store, j.listing, Day(at));
      if count >= DAILY_LIMIT { return; }
      store := store.(clock := Some(Clock(Max(c.last, at), c.version + 1, j.spec)),
                      records := store.records[j.spec := Record(j, pickup, Running, 0, NoHash, 0)],
                      nonces := store.nonces + {j.nonce}, authorizations := store.authorizations + {j.authorization},
                      daily := store.daily[(j.listing, Day(at)) := count + 1],
                      admitted := store.admitted + [Admission(j, Day(at))]);
      Took(Action.Admit(j, at, pickup));
      done := true;
    }

    /** This very call took the step that admitted the job: the last of the history. */
    twostate predicate AdmittedNow(j: Job, at: int, pickup: int)
      reads this
    {
      var n := |history|;
      1 < n && |old(history)| < n && AdmitStep(history[n - 2], history[n - 1], j, at, pickup)
    }

    /** One attempt of `Admit`; when not `done` it is tried again. */
    method AdmitOnce(j: Job, at: int, pickup: int, a: Attempt) returns (done: bool, r: Admittance)
      requires Sound() && LawfulAttempt(a) && j.spec != ""
      modifies this
      ensures Sound() && old(history) <= history
      ensures done && r == Fresh ==> AdmittedNow(j, at, pickup)
      ensures done && r == Known <==> KnownAs(old(store), j)
      ensures Undisturbed(a) ==> (done && r == Fresh <==> Admissible(old(store), j, at, pickup))
      ensures Undisturbed(a) && !(done && r == Fresh) ==> store == old(store)
    {
      if j.spec in store.records {
        return true, if KnownAs(store, j) then Known else Refused;
      }
      Yield(a.afterFirst);
      ghost var read := |history| - 1;
      var clock, c := store.clock, ClockOf(store);
      if c.last > at + CLOCK_SKEW || c.active != "" || pickup > at { return true, Refused; }
      Yield(a.afterSecond);
      done, r := false, Refused;
      if a.reply != Dropped && ClockUnmoved(clock) {
        Unmoved(history, read);
        var admitted := AdmitTx(j, at, pickup, c);
        if admitted && a.reply == Answered { done, r := true, Fresh; }
      }
    }

    /** Admits a job, in at most five attempts.  Fresh means that this very call took the step; a
        repeated request is recognised by its token and hash.  Undisturbed, a job is admitted exactly
        when it may be. */
    method Admit(j: Job, at: int, pickup: int, attempts: seq<Attempt>) returns (r: Admittance)
      requires Sound() && |attempts| == 5 && j.spec != "" && forall a :: a in attempts ==> LawfulAttempt(a)
      modifies this
      ensures Sound() && old(history) <= history
      ensures r == Fresh ==> AdmittedNow(j, at, pickup)
      ensures r == Known ==> exists i :: |old(history)| - 1 <= i < |history| && KnownAs(history[i], j)
      ensures KnownAs(old(store), j) ==> r == Known
      ensures (forall a :: a in attempts ==> Undisturbed(a)) ==>
        (r == Fresh <==> Admissible(old(store), j, at, pickup)) && (r == Known <==> KnownAs(old(store), j))
    {
      var retry := 0;
      while retry < 5
        invariant 0 <= retry <= 5 && Sound() && old(history) <= history
        invariant 0 < retry ==> !KnownAs(old(store), j)
        invariant (retry == 0 || forall a :: a in attempts ==> Undisturbed(a)) ==> store == old(store)
        invariant 0 < retry && Undisturbed(attempts[0]) ==> !Admissible(old(store), j, at, pickup)
      {
        var done;
        ghost var start := |history| - 1;
        done, r := AdmitOnce(j, at, pickup, attempts[retry]);
        assert done && r == Known ==> KnownAs(history[start], j);
        if done { return; }
        retry := retry + 1;
      }
      r := Refused;
    }

    // ---------------------------------------------------------------- commit

    /** Puts one chunk, or finds the same bytes there already. */
    method PutChunk(spec: string, body: Bytes, n: int, a: Attempt) returns (ok: bool)
      requires Sound() && LawfulAttempt(a) && 0 <= n < ChunkCount(|body|)
      modifies this
      ensures Sound() && old(history) <= history
      ensures ok <==> ChunkKey(spec, Digest(body), n) in store.chunks
      ensures a.reply == Answered ==> ok
      ensures Undisturbed(a) ==> store.records == old(store).records
    {
      var k := ChunkKey(spec, Digest(body), n);
      if a.reply != Dropped && k !in store.chunks {
        store := store.(chunks := store.chunks[k := Slice(body, n)]);
        Took(Action.PutChunk(spec, body, n));
        if a.reply == Answered { return true; }
      }
      ghost var mid := |history| - 1;
      Yield(a.afterFirst);
      ChunkHolds(history, mid, k);
      ok := k in store.chunks && store.chunks[k] == Slice(body, n);
    }

    /** Puts every chunk of a body, stopping at the first that cannot be had. */
    method PutChunks(spec: string, body: Bytes, attempts: seq<Attempt>) returns (ok: bool)
      requires Sound() && |attempts| >= ChunkCount(|body|) && forall a :: a in attempts ==> LawfulAttempt(a)
      modifies this
      ensures Sound() && old(history) <= history
      ensures ok ==> ChunksPresent(store, spec, Digest(body), ChunkCount(|body|))
      ensures (forall a :: a in attempts ==> Undisturbed(a)) ==> ok && store.records == old(store).records
    {
      var count, n := ChunkCount(|body|), 0;
      while n < count
        invariant 0 <= n && (n <= count || count <= 0) && Sound() && old(history) <= history
        invariant ChunksPresent(store, spec, Digest(body), n)
        invariant (forall a :: a in attempts ==> Undisturbed(a)) ==> store.records == old(store).records
      {
        ghost var was := |history| - 1;
        assert attempts[n] in attempts;
        var put := PutChunk(spec, body, n, attempts[n]);
        ChunksHold(history, was, spec, Digest(body), n);
        if !put { return false; }
        n := n + 1;
      }
      ok := true;
    }

    /** The conditional write of the descriptor: only on a record that is still running. */
    method CommitDescriptor(r: Record, body: Bytes, a: Attempt, ghost seen: nat) returns (ok: bool)
      requires Sound() && ReadAt(seen, r) && LawfulAttempt(a) && 0 < |body| <= MAX_REPORT
      requires ChunksPresent(store, r.job.spec, Digest(body), ChunkCount(|body|))
      modifies this
      ensures Sound() && old(history) <= history
      ensures ok ==> r.job.spec in store.records && store.records[r.job.spec] == CommittedFor(r, body)
      ensures Undisturbed(a) ==>
        (ok <==> r.job.spec in old(store).records && old(store).records[r.job.spec].state == Running)
    {
      ghost var was := |history| - 1;
      Yield(a.afterFirst);
      ChunksHold(history, was, r.job.spec, Digest(body), ChunkCount(|body|));
      ReadHolds(history, seen, |history| - 1, r);
      var id := r.job.spec;
      if a.reply == Dropped || store.records[id].state != Running { return false; }
      store := store.(records := store.records[id := CommittedFor(r, body)]);
      Took(Action.Commit(id, body));
      ok := a.reply == Answered;
    }

    /** Stores the report's chunks, then its descriptor, which becomes visible only when all chunks
        exist.  `seen` is when the caller read `r`. */
    method Commit(r: Record, body: Bytes, at: int, chunkAttempts: seq<Attempt>, last: Attempt, ghost seen: nat)
      returns (ok: bool)
      requires Sound() && ReadAt(seen, r) && LawfulAttempt(last)
      requires |chunkAttempts| >= ChunkCount(|body|) && forall a :: a in chunkAttempts ==> LawfulAttempt(a)
      modifies this
      ensures Sound() && old(history) <= history
      ensures ok ==> && 0 < |body| <= MAX_REPORT && at <= r.pickup + TERMINAL_DEADLINE
                     && ReadAt(|history| - 1, CommittedFor(r, body))
      ensures Undisturbed(last) && (forall a :: a in chunkAttempts ==> Undisturbed(a)) ==>
        (ok <==> && 0 < |body| <= MAX_REPORT && at <= r.pickup + TERMINAL_DEADLINE
                 && r.job.spec in old(store).records && old(store).records[r.job.spec].state == Running)
    {
      if |body| == 0 || |body| > MAX_REPORT || at > r.pickup + TERMINAL_DEADLINE { return false; }
      ok := PutChunks(r.job.spec, body, chunkAttempts);
      if ok { ok := CommitDescriptor(r, body, last, seen); }
    }

    /** Reads a report back in chunks.  Whoever reads it, and whenever, gets the committed bytes. */
    method Body(r: Record, others: seq<Others>, ghost seen: nat) returns (b: Option<Bytes>)
      requires Sound() && ReadAt(seen, r) && |others| >= r.chunks && forall o :: o in others ==> Lawful(o)
      modifies this
      ensures Sound() && old(history) <= history
      ensures if r.state == Committed then r.hash.Digest? && b == Some(r.hash.of) else b == None
    {
      ReadHolds(history, seen, |history| - 1, r);
      if r.state != Committed || r.chunks < 1 || r.length > MAX_REPORT || r.chunks != ChunkCount(r.length) {
        return None;
      }
      var out: Bytes := [];
      var n := 0;
      while n < r.chunks
        invariant 0 <= n <= r.chunks && Sound() && old(history) <= history && seen < |history|
        invariant ReadAt(seen, r) && out == r.hash.of[..Min(n * CHUNK, r.length)]
      {
        ReadHolds(history, seen, |history| - 1, r);
        SliceJoins(r.hash.of, n);
        var k := ChunkKey(r.job.spec, r.hash, n);
        if k !in store.chunks || |store.chunks[k]| > CHUNK { return None; }
        out := out + store.chunks[k];
        Yield(others[n]);
        n := n + 1;
      }
      if |out| != r.length || Digest(out) != r.hash { return None; }
      b := Some(out);
    }

    // ---------------------------------------------------------------- settle

    /** Settles the active record and frees the clock in one transaction. */
    method Settle(r: Record, at: int, final: State, a: Attempt, ghost seen: nat) returns (ok: bool)
      requires Sound() && ReadAt(seen, r) && LawfulAttempt(a)
      requires final in {Reported, Expired, Interrupted}
      modifies this
      ensures Sound() && old(history) <= history
      ensures ok ==> ReadAt(|history| - 1, r.(state := final)) && ClockOf(store).active == ""
      ensures Undisturbed(a) && (final == Reported ==> r.state == Committed) ==>
        (ok <==> ClockOf(old(store)).active == r.job.spec)
    {
      ghost var start := |history| - 1;
      ReadHolds(history, seen, start, r);
      var clock := store.clock;
      if clock.None? || clock.value.active != r.job.spec { return false; }
      Yield(a.afterFirst);
      if a.reply == Dropped || !ClockUnmoved(clock) { return false; }
      if final == Reported && exists n :: 0 <= n < r.chunks && ChunkKey(r.job.spec, r.hash, n) !in store.chunks {
        return false;
      }
      Unmoved(history, start);
      ReadHolds(history, seen, |history| - 1, r);
      store := store.(clock := Some(Clock(Max(clock.value.last, at), clock.value.version + 1, "")),
                      records := store.records[r.job.spec := r.(state := final)]);
      Took(Action.Settle(r.(state := final), at));
      ok := a.reply == Answered;
    }
  }
}
