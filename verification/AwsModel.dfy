/** The AWS verifier's store: one clock record, one record per accepted specification, the replay
    keys, the daily counters and the outbox chunks.  Invocations overlap freely; each conditional
    write is one atomic step on the store. */
module AwsModel {
  import opened Counting

  const CLOCK_SKEW := 300
  const DAILY_LIMIT := 10
  const CHUNK := 180 * 1024
  const MAX_REPORT := 2 * 1024 * 1024
  const TERMINAL_DEADLINE := 1920

  datatype Option<T> = None | Some(value: T)

  type Bytes = seq<int>

  /** A digest determines the bytes it was taken of. */
  datatype Hash = NoHash | Digest(of: Bytes)

  datatype State = Running | Committed | Reported | Expired | Interrupted

  datatype Job = Job(spec: string, token: string, specHash: string, nonce: string, authorization: string, listing: string)

  datatype Clock = Clock(last: int, version: int, active: string)

  /** A `Running` record is the one whose `state` attribute does not exist yet. */
  datatype Record = Record(job: Job, pickup: int, state: State, chunks: int, hash: Hash, length: int)

  datatype ChunkKey = ChunkKey(spec: string, hash: Hash, n: int)

  datatype Admission = Admission(job: Job, day: int)

  datatype Store = Store(clock: Option<Clock>, records: map<string, Record>, nonces: set<string>,
                         authorizations: set<string>, daily: map<(string, int), int>,
                         chunks: map<ChunkKey, Bytes>, admitted: seq<Admission>)

  function Day(at: int): int { at / 86400 }

  function Max(x: int, y: int): int { if x >= y then x else y }

  function Min(x: int, y: int): int { if x <= y then x else y }

  /** The clock an invocation works with when none is stored. */
  function ClockOf(s: Store): Clock
  {
    if s.clock.Some? then s.clock.value else Clock(0, 0, "")
  }

  function DailyCount(s: Store, listing: string, day: int): int
  {
    if (listing, day) in s.daily then s.daily[(listing, day)] else 0
  }

  function ChunkCount(length: int): int
  {
    (length + CHUNK - 1) / CHUNK
  }

  /** The `n`-th slice of a body. */
  function Slice(body: Bytes, n: int): Bytes
    requires 0 <= n < ChunkCount(|body|)
  {
    body[n * CHUNK..Min((n + 1) * CHUNK, |body|)]
  }

  predicate Settled(r: Record)
  {
    r.state == Reported || r.state == Expired || r.state == Interrupted
  }

  // ------------------------------------------------------------------ atomic steps

  ghost predicate ObserveStep(s: Store, s': Store, at: int)
  {
    var c := ClockOf(s);
    c.last <= at + CLOCK_SKEW && s' == s.(clock := Some(Clock(Max(c.last, at), c.version + 1, c.active)))
  }

  /** Everything of an admission is new, nothing is active, and the listing has room today. */
  predicate Admissible(s: Store, j: Job, at: int, pickup: int)
  {
    var c := ClockOf(s);
    && j.spec != "" && c.last <= at + CLOCK_SKEW && c.active == "" && pickup <= at
    && j.spec !in s.records && j.nonce !in s.nonces && j.authorization !in s.authorizations
    && DailyCount(s, j.listing, Day(at)) < DAILY_LIMIT
  }

  ghost predicate AdmitStep(s: Store, s': Store, j: Job, at: int, pickup: int)
  {
    var c, day := ClockOf(s), Day(at);
    && Admissible(s, j, at, pickup)
    && s' == s.(clock := Some(Clock(Max(c.last, at), c.version + 1, j.spec)),
                records := s.records[j.spec := Record(j, pickup, Running, 0, NoHash, 0)],
                nonces := s.nonces + {j.nonce}, authorizations := s.authorizations + {j.authorization},
                daily := s.daily[(j.listing, day) := DailyCount(s, j.listing, day) + 1],
                admitted := s.admitted + [Admission(j, day)])
  }

  /** A chunk is created only where none exists. */
  ghost predicate ChunkStep(s: Store, s': Store, spec: string, body: Bytes, n: int)
  {
    && 0 <= n < ChunkCount(|body|) && ChunkKey(spec, Digest(body), n) !in s.chunks
    && s' == s.(chunks := s.chunks[ChunkKey(spec, Digest(body), n) := Slice(body, n)])
  }

  ghost predicate ChunksPresent(s: Store, spec: string, hash: Hash, count: int)
  {
    forall n :: 0 <= n < count ==> ChunkKey(spec, hash, n) in s.chunks
  }

  function CommittedFor(r: Record, body: Bytes): Record
  {
    r.(state := Committed, chunks := ChunkCount(|body|), hash := Digest(body), length := |body|)
  }

  ghost predicate CommitStep(s: Store, s': Store, id: string, body: Bytes)
  {
    && id in s.records && s.records[id].state == Running && 0 < |body| <= MAX_REPORT
    && ChunksPresent(s, id, Digest(body), ChunkCount(|body|))
    && s' == s.(records := s.records[id := CommittedFor(s.records[id], body)])
  }

  /** The writer may bring an older copy of the record; job and pickup are the same in every copy. */
  ghost predicate SettleStep(s: Store, s': Store, r: Record, at: int)
  {
    && s.clock.Some? && s.clock.value.active == r.job.spec != "" && Settled(r)
    && r.job.spec in s.records && s.records[r.job.spec].job == r.job && s.records[r.job.spec].pickup == r.pickup
    && s' == s.(clock := Some(Clock(Max(s.clock.value.last, at), s.clock.value.version + 1, "")),
                records := s.records[r.job.spec := r])
  }

  datatype Action =
    | Observe(at: int)
    | Admit(j: Job, at: int, pickup: int)
    | PutChunk(spec: string, body: Bytes, n: int)
    | Commit(id: string, body: Bytes)
    | Settle(r: Record, at: int)
    | Idle

  ghost predicate Does(s: Store, s': Store, a: Action)
  {
    match a
    case Observe(at) => ObserveStep(s, s', at)
    case Admit(j, at, pickup) => AdmitStep(s, s', j, at, pickup)
    case PutChunk(spec, body, n) => ChunkStep(s, s', spec, body, n)
    case Commit(id, body) => CommitStep(s, s', id, body)
    case Settle(r, at) => SettleStep(s, s', r, at)
    case Idle => s' == s
  }

  ghost predicate Step(s: Store, s': Store)
  {
    exists a :: Does(s, s', a)
  }

  ghost predicate Follows(run: seq<Store>, i: int)
    requires 0 <= i < |run| - 1
  {
    Step(run[i], run[i + 1])
  }

  ghost predicate IsRun(run: seq<Store>)
  {
    run != [] && forall i :: 0 <= i < |run| - 1 ==> Follows(run, i)
  }

  const EmptyStore := Store(None, map[], {}, {}, map[], map[], [])

  // ------------------------------------------------------------------ the invariant

  /** Exactly the unsettled record is the active one. */
  ghost predicate ActiveExact(s: Store)
  {
    && (forall id :: id in s.records ==> id != "" && s.records[id].job.spec == id)
    && (forall id :: id in s.records ==> (Settled(s.records[id]) <==> ClockOf(s).active != id))
    && (ClockOf(s).active != "" ==> ClockOf(s).active in s.records)
  }

  /** Chunks are slices of the body their key's digest names; a committed record has them all. */
  ghost predicate CustodyExact(s: Store)
  {
    && (forall k :: k in s.chunks ==>
          k.hash.Digest? && 0 <= k.n < ChunkCount(|k.hash.of|) && s.chunks[k] == Slice(k.hash.of, k.n))
    && (forall id :: id in s.records && s.records[id].state == Committed ==> CustodyOf(s, id))
  }

  ghost predicate CustodyOf(s: Store, id: string)
    requires id in s.records
  {
    var r := s.records[id];
    && r.hash.Digest? && 0 < r.length == |r.hash.of| <= MAX_REPORT && r.chunks == ChunkCount(r.length)
    && ChunksPresent(s, id, r.hash, r.chunks)
  }

  ghost predicate Distinct(admitted: seq<Admission>)
  {
    forall i, j :: 0 <= i < j < |admitted| ==>
      && admitted[i].job.spec != admitted[j].job.spec
      && admitted[i].job.nonce != admitted[j].job.nonce
      && admitted[i].job.authorization != admitted[j].job.authorization
  }

  ghost predicate Remembered(s: Store, j: Job)
  {
    && j.spec in s.records && s.records[j.spec].job == j
    && j.nonce in s.nonces && j.authorization in s.authorizations
  }

  ghost predicate WasAdmitted(s: Store, j: Job)
  {
    exists i :: 0 <= i < |s.admitted| && s.admitted[i].job == j
  }

  /** No specification, nonce or authorization was ever admitted twice; admissions are what is
      remembered. */
  ghost predicate AdmittedOnce(s: Store)
  {
    && Distinct(s.admitted)
    && (forall i :: 0 <= i < |s.admitted| ==> Remembered(s, s.admitted[i].job))
    && (forall id :: id in s.records ==> WasAdmitted(s, s.records[id].job))
  }

  function DayFlags(admitted: seq<Admission>, listing: string, day: int): seq<bool>
  {
    seq(|admitted|, i requires 0 <= i < |admitted| => admitted[i].job.listing == listing && admitted[i].day == day)
  }

  /** The daily counter of a listing is the number of its admissions that day, at most ten. */
  ghost predicate QuotaExact(s: Store)
  {
    forall listing, day ::
      DailyCount(s, listing, day) == Tally(DayFlags(s.admitted, listing, day)) && DailyCount(s, listing, day) <= DAILY_LIMIT
  }

  ghost predicate Inv(s: Store)
  {
    ActiveExact(s) && CustodyExact(s) && AdmittedOnce(s) && QuotaExact(s)
  }

  lemma EmptyHolds()
    ensures Inv(EmptyStore)
  {
  }

  lemma AdmitKeepsQuota(s: Store, s': Store, j: Job, at: int, pickup: int)
    requires QuotaExact(s) && AdmitStep(s, s', j, at, pickup)
    ensures QuotaExact(s')
  {
    forall listing, day
      ensures DailyCount(s', listing, day) == Tally(DayFlags(s'.admitted, listing, day))
      ensures DailyCount(s', listing, day) <= DAILY_LIMIT
    {
      TallyAppend(DayFlags(s.admitted, listing, day), DayFlags(s'.admitted, listing, day),
                  j.listing == listing && Day(at) == day);
      assert DailyCount(s, listing, day) == Tally(DayFlags(s.admitted, listing, day));
    }
  }

  lemma AdmitKeepsOnce(s: Store, s': Store, j: Job, at: int, pickup: int)
    requires AdmittedOnce(s) && AdmitStep(s, s', j, at, pickup)
    ensures AdmittedOnce(s')
  {
    var n := |s.admitted|;
    assert s'.admitted[n].job == j;
    AdmittedDiffer(s, s', j, at, pickup);
    forall id | id in s'.records ensures WasAdmitted(s', s'.records[id].job) {
      if id == j.spec {
        assert WasAdmitted(s', j);
      } else {
        AdmissionStays(s, s', s.records[id].job);
      }
    }
  }

  lemma AdmittedDiffer(s: Store, s': Store, j: Job, at: int, pickup: int)
    requires AdmittedOnce(s) && AdmitStep(s, s', j, at, pickup)
    ensures forall i :: 0 <= i < |s.admitted| ==>
      && s.admitted[i].job.spec != j.spec && s.admitted[i].job.nonce != j.nonce
      && s.admitted[i].job.authorization != j.authorization && Remembered(s', s.admitted[i].job)
  {
    forall i | 0 <= i < |s.admitted|
      ensures s.admitted[i].job.spec != j.spec && s.admitted[i].job.nonce != j.nonce
              && s.admitted[i].job.authorization != j.authorization && Remembered(s', s.admitted[i].job)
    {
      assert Remembered(s, s.admitted[i].job);
    }
  }

  lemma AdmissionStays(s: Store, s': Store, j: Job)
    requires WasAdmitted(s, j) && s.admitted <= s'.admitted
    ensures WasAdmitted(s', j)
  {
    var i :| 0 <= i < |s.admitted| && s.admitted[i].job == j;
    assert s'.admitted[i].job == j;
  }

  /** Records keep their jobs, and nothing else of `AdmittedOnce` moves. */
  lemma OnceStays(s: Store, s': Store)
    requires AdmittedOnce(s) && s'.admitted == s.admitted && s'.nonces == s.nonces && s'.authorizations == s.authorizations
    requires s'.records.Keys == s.records.Keys && forall id :: id in s.records ==> s'.records[id].job == s.records[id].job
    ensures AdmittedOnce(s')
  {
    forall i | 0 <= i < |s.admitted| ensures Remembered(s', s.admitted[i].job) {
      assert Remembered(s, s.admitted[i].job);
    }
    forall id | id in s'.records ensures WasAdmitted(s', s'.records[id].job) {
      AdmissionStays(s, s', s.records[id].job);
    }
  }

  lemma OtherFrame(s: Store, s': Store, a: Action)
    requires Does(s, s', a) && !a.Admit?
    ensures s'.admitted == s.admitted && s'.nonces == s.nonces && s'.authorizations == s.authorizations
    ensures s'.daily == s.daily && s'.records.Keys == s.records.Keys
    ensures forall id :: id in s.records ==> s'.records[id].job == s.records[id].job
  {
  }

  lemma StepKeepsActive(s: Store, s': Store, a: Action)
    requires ActiveExact(s) && Does(s, s', a)
    ensures ActiveExact(s')
  {
  }

  lemma StepKeepsCustody(s: Store, s': Store, a: Action)
    requires CustodyExact(s) && Does(s, s', a)
    ensures CustodyExact(s')
  {
    forall id | id in s'.records && s'.records[id].state == Committed ensures CustodyOf(s', id) {
      if a.Commit? && a.id == id {
      } else {
        assert CustodyOf(s, id);
      }
    }
  }

  lemma StepKeepsInv(s: Store, s': Store, a: Action)
    requires Inv(s) && Does(s, s', a)
    ensures Inv(s')
  {
    StepKeepsActive(s, s', a);
    StepKeepsCustody(s, s', a);
    if a.Admit? {
      AdmitKeepsQuota(s, s', a.j, a.at, a.pickup);
      AdmitKeepsOnce(s, s', a.j, a.at, a.pickup);
    } else {
      OtherFrame(s, s', a);
      OnceStays(s, s');
      QuotaStays(s, s');
    }
  }

  lemma QuotaStays(s: Store, s': Store)
    requires QuotaExact(s) && s'.daily == s.daily && s'.admitted == s.admitted
    ensures QuotaExact(s')
  {
    forall listing, day
      ensures DailyCount(s', listing, day) == Tally(DayFlags(s'.admitted, listing, day))
      ensures DailyCount(s', listing, day) <= DAILY_LIMIT
    {
      assert DailyCount(s, listing, day) == Tally(DayFlags(s.admitted, listing, day));
    }
  }

  // ------------------------------------------------------------------ what time cannot undo

  /** How a record may look later on. */
  ghost predicate Later(r: Record, r': Record)
  {
    && r'.job == r.job && r'.pickup == r.pickup
    && (Settled(r) ==> r' == r)
    && (r.state == Committed ==> r' == r || Settled(r'))
  }

  /** `s'` comes from `s` by any number of steps: what that promises. */
  ghost predicate Evolves(s: Store, s': Store)
  {
    && ClockOf(s).last <= ClockOf(s').last
    && (s.clock.Some? ==> s'.clock.Some?)
    && ClockOf(s).version <= ClockOf(s').version
    && (ClockOf(s).version == ClockOf(s').version ==> s'.clock == s.clock)
    && (forall id :: id in s.records ==> id in s'.records && Later(s.records[id], s'.records[id]))
    && s.nonces <= s'.nonces && s.authorizations <= s'.authorizations && s.admitted <= s'.admitted
    && (forall k :: k in s.chunks ==> k in s'.chunks && s'.chunks[k] == s.chunks[k])
  }

  lemma StepEvolves(s: Store, s': Store, a: Action)
    requires Inv(s) && Does(s, s', a)
    ensures Evolves(s, s')
  {
    if a.Admit? { AdmitEvolves(s, s', a.j, a.at, a.pickup); }
  }

  lemma AdmitEvolves(s: Store, s': Store, j: Job, at: int, pickup: int)
    requires AdmitStep(s, s', j, at, pickup)
    ensures Evolves(s, s')
  {}

  lemma EvolvesOn(s: Store, t: Store, u: Store)
    requires Evolves(s, t) && Evolves(t, u)
    ensures Evolves(s, u)
  {
    forall id | id in s.records ensures id in u.records && Later(s.records[id], u.records[id]) {
      assert Later(s.records[id], t.records[id]) && Later(t.records[id], u.records[id]);
    }
  }

  /** A later store: some run leads there. */
  ghost predicate Reaches(s: Store, s': Store)
  {
    exists run :: IsRun(run) && run[0] == s && run[|run| - 1] == s'
  }

  lemma {:induction false} RunKeeps(run: seq<Store>, i: nat)
    requires IsRun(run) && Inv(run[0]) && i < |run|
    ensures Inv(run[i]) && Evolves(run[0], run[i])
  {
    if i > 0 {
      RunKeeps(run, i - 1);
      assert Follows(run, i - 1);
      var a :| Does(run[i - 1], run[i], a);
      StepKeepsInv(run[i - 1], run[i], a);
      StepEvolves(run[i - 1], run[i], a);
      EvolvesOn(run[0], run[i - 1], run[i]);
    }
  }

  // ------------------------------------------------------------------ promises over every run

  /** Under any interleaving: at most one record is unsettled, it is the active one, and the clock
      names a record whenever it names anything. */
  lemma OneActiveRecord(run: seq<Store>, i: nat, x: string, y: string)
    requires IsRun(run) && run[0] == EmptyStore && i < |run|
    ensures ClockOf(run[i]).active != "" ==> ClockOf(run[i]).active in run[i].records
    ensures x in run[i].records ==> (!Settled(run[i].records[x]) <==> ClockOf(run[i]).active == x)
    ensures x in run[i].records && y in run[i].records && !Settled(run[i].records[x]) && !Settled(run[i].records[y])
            ==> x == y
  {
    EmptyHolds();
    RunKeeps(run, i);
  }

  /** Every tail of a run is a run. */
  lemma TailRun(run: seq<Store>, i: nat)
    requires IsRun(run) && i < |run|
    ensures IsRun(run[i..])
  {
    forall k | 0 <= k < |run[i..]| - 1 ensures Follows(run[i..], k) { assert Follows(run, i + k); }
  }

  /** The high-water mark never falls, versions never repeat with another clock, and a settled record
      never changes again. */
  lemma NothingIsUndone(run: seq<Store>, i: nat, j: nat, id: string)
    requires IsRun(run) && run[0] == EmptyStore && i <= j < |run|
    ensures ClockOf(run[i]).last <= ClockOf(run[j]).last
    ensures ClockOf(run[i]).version == ClockOf(run[j]).version ==> run[i].clock == run[j].clock
    ensures id in run[i].records && Settled(run[i].records[id]) ==>
      id in run[j].records && run[j].records[id] == run[i].records[id]
  {
    EmptyHolds();
    RunKeeps(run, i);
    TailRun(run, i);
    RunKeeps(run[i..], j - i);
  }

  /** No specification, nonce or authorization is admitted twice, and no listing more than ten times
      a day. */
  lemma AdmissionsAreUnique(run: seq<Store>, i: nat, x: nat, y: nat, listing: string, day: int)
    requires IsRun(run) && run[0] == EmptyStore && i < |run|
    ensures x < y < |run[i].admitted| ==>
      var a, b := run[i].admitted[x].job, run[i].admitted[y].job;
      a.spec != b.spec && a.nonce != b.nonce && a.authorization != b.authorization
    ensures Tally(DayFlags(run[i].admitted, listing, day)) <= DAILY_LIMIT
  {
    EmptyHolds();
    RunKeeps(run, i);
    assert DailyCount(run[i], listing, day) <= DAILY_LIMIT;
  }
}
