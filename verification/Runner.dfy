/** Scan reports on their way from the ledger's outbox into the audit log: one entry for each scan
    instruction, across crashes and lost acknowledgements. */
module Runner {
  import opened AuditChain
  import opened AuditReader
  import opened AuditState
  import opened AuditLog

  const REPORT := "scan_report"

  /** An admitted job: its instruction, its report once there is one, and the report's place in the log. */
  datatype Job = Job(iid: string, result: Option<Bytes>, auditSeq: Option<int>)

  /** No two jobs came from the same instruction. */
  predicate Distinct(rows: seq<Job>)
  {
    forall i, j :: 0 <= i < |rows| && 0 <= j < |rows| ==> Apart(rows, i, j)
  }

  predicate Apart(rows: seq<Job>, i: int, j: int)
    requires 0 <= i < |rows| && 0 <= j < |rows|
  {
    rows[i].iid == rows[j].iid ==> i == j
  }

  /** Reports name the instruction they answer. */
  predicate Named(iid: Bytes -> string, rows: seq<Job>)
  {
    forall i :: 0 <= i < |rows| && rows[i].result.Some? ==> iid(rows[i].result.value) == rows[i].iid != ""
  }

  predicate IsReport(es: seq<Entry>, k: int)
  {
    0 <= k < |es| && es[k].kind == REPORT
  }

  /** Every report in the log is the result of one job, its owner. */
  ghost predicate Owned(rows: seq<Job>, es: seq<Entry>, owner: map<int, int>)
  {
    && (forall k :: k in owner <==> IsReport(es, k))
    && (forall k :: k in owner ==> 0 <= owner[k] < |rows| && rows[owner[k]].result == Some(es[k].body))
  }

  /** No job's report is in the log twice. */
  ghost predicate Once(owner: map<int, int>)
  {
    forall p, q :: p in owner && q in owner ==> Single(owner, p, q)
  }

  predicate Single(owner: map<int, int>, p: int, q: int)
    requires p in owner && q in owner
  {
    owner[p] == owner[q] ==> p == q
  }

  /** A linked job names an entry that holds its report. */
  ghost predicate AllLinked(rows: seq<Job>, es: seq<Entry>)
  {
    forall i :: 0 <= i < |rows| && rows[i].auditSeq.Some? ==> LinkedAt(rows[i], es)
  }

  predicate LinkedAt(job: Job, es: seq<Entry>)
  {
    job.auditSeq.Some? && IsReport(es, job.auditSeq.value - 1)
    && job.result == Some(es[job.auditSeq.value - 1].body)
  }

  /** Every report in the log is linked, or stands in the index that recovery built. */
  ghost predicate Settled(iid: Bytes -> string, rows: seq<Job>, es: seq<Entry>, owner: map<int, int>, index: map<string, Entry>)
  {
    forall k :: k in owner ==> SettledAt(iid, rows, es, owner, index, k)
  }

  predicate SettledAt(iid: Bytes -> string, rows: seq<Job>, es: seq<Entry>, owner: map<int, int>, index: map<string, Entry>, k: int)
  {
    k in owner && IsReport(es, k) && 0 <= owner[k] < |rows|
    && (rows[owner[k]].auditSeq == Some(k + 1) || (iid(es[k].body) in index && index[iid(es[k].body)] == es[k]))
  }

  /** A job goes on: it gets its result, or is linked to the entry that holds it. */
  predicate GoesOn(iid: Bytes -> string, was: Job, job: Job, es: seq<Entry>)
  {
    && job.iid == was.iid && (was.result.Some? ==> job.result == was.result)
    && (job.result.Some? ==> iid(job.result.value) == job.iid != "")
    && (was.auditSeq.Some? ==> job.auditSeq == was.auditSeq)
    && (job.auditSeq.Some? ==> LinkedAt(job, es))
  }

  lemma SameNames(rows: seq<Job>, i: nat, job: Job)
    requires i < |rows| && job.iid == rows[i].iid
    ensures Distinct(rows[i := job]) <==> Distinct(rows)
  {
    var after := rows[i := job];
    forall j, k | 0 <= j < |rows| && 0 <= k < |rows| ensures Apart(after, j, k) <==> Apart(rows, j, k) {}
  }

  lemma Advanced(iid: Bytes -> string, rows: seq<Job>, i: nat, job: Job, es: seq<Entry>, owner: map<int, int>,
                 index: map<string, Entry>)
    requires i < |rows| && GoesOn(iid, rows[i], job, es)
    requires Named(iid, rows) && Owned(rows, es, owner) && AllLinked(rows, es)
    ensures Named(iid, rows[i := job]) && Owned(rows[i := job], es, owner) && AllLinked(rows[i := job], es)
    ensures Distinct(rows[i := job]) <==> Distinct(rows)
    ensures Settled(iid, rows, es, owner, index) ==> Settled(iid, rows[i := job], es, owner, index)
  {
    SameNames(rows, i, job);
    var after := rows[i := job];
    forall j | 0 <= j < |after| && after[j].auditSeq.Some? ensures LinkedAt(after[j], es) {
      if j != i { assert LinkedAt(rows[j], es); }
    }
    if Settled(iid, rows, es, owner, index) {
      forall k | k in owner ensures SettledAt(iid, after, es, owner, index, k) {
        assert SettledAt(iid, rows, es, owner, index, k);
      }
    }
  }

  /** The index holds reports of the log, each under the instruction it names. */
  ghost predicate IndexHolds(iid: Bytes -> string, index: map<string, Entry>, es: seq<Entry>)
  {
    forall name :: name in index ==> IndexedAt(iid, index[name], name, es)
  }

  /** It misses none of the first `n`. */
  ghost predicate Indexed(iid: Bytes -> string, index: map<string, Entry>, es: seq<Entry>, n: int)
  {
    forall k :: IsReport(es, k) && k < n && iid(es[k].body) != "" ==> iid(es[k].body) in index
  }

  predicate IndexedAt(iid: Bytes -> string, e: Entry, name: string, es: seq<Entry>)
  {
    IsReport(es, e.seqNo - 1) && es[e.seqNo - 1] == e && iid(e.body) == name
  }

  /** One more report in the log, owned by a job that had none there. */
  lemma Appended(iid: Bytes -> string, rows: seq<Job>, es: seq<Entry>, owner: map<int, int>, index: map<string, Entry>,
                 i: nat, e: Entry)
    requires i < |rows| && rows[i].auditSeq.None? && e.kind == REPORT && rows[i].result == Some(e.body)
    requires Named(iid, rows) && Owned(rows, es, owner) && AllLinked(rows, es) && rows[i].iid !in index
    requires Distinct(rows) ==> Once(owner) && Settled(iid, rows, es, owner, index)
    ensures Owned(rows, es + [e], owner[|es| := i]) && AllLinked(rows, es + [e])
    ensures Distinct(rows) ==> Once(owner[|es| := i])
    ensures Distinct(rows) ==> SettledBut(iid, rows, es + [e], owner[|es| := i], index, |es|)
  {
    forall j | 0 <= j < |rows| && rows[j].auditSeq.Some? ensures LinkedAt(rows[j], es + [e]) {
      assert LinkedAt(rows[j], es);
    }
    if Distinct(rows) {
      forall k | k in owner
        ensures owner[k] != i && SettledAt(iid, rows, es + [e], owner[|es| := i], index, k)
      {
        assert SettledAt(iid, rows, es, owner, index, k);
      }
      var after := owner[|es| := i];
      forall p, q | p in after && q in after ensures Single(after, p, q) {
        if p in owner && q in owner { assert Single(owner, p, q); }
      }
    }
  }

  /** Reports that name the same instruction are the same entry. */
  lemma SameJob(iid: Bytes -> string, rows: seq<Job>, es: seq<Entry>, owner: map<int, int>, p: int, q: int)
    requires Named(iid, rows) && Owned(rows, es, owner) && Distinct(rows) && Once(owner)
    requires IsReport(es, p) && IsReport(es, q) && iid(es[p].body) == iid(es[q].body)
    ensures p == q
  {
    assert p in owner && q in owner;
    assert Single(owner, p, q);
    assert Apart(rows, owner[p], owner[q]);
  }

  /** A complete index settles a log whose instructions are distinct. */
  lemma IndexSettles(iid: Bytes -> string, rows: seq<Job>, es: seq<Entry>, owner: map<int, int>, index: map<string, Entry>)
    requires Named(iid, rows) && Owned(rows, es, owner) && Distinct(rows) && Once(owner)
    requires IndexHolds(iid, index, es) && Indexed(iid, index, es, |es|)
    ensures Settled(iid, rows, es, owner, index)
  {
    forall k | k in owner ensures SettledAt(iid, rows, es, owner, index, k) {
      var name := iid(es[k].body);
      assert rows[owner[k]].iid == name != "";
      var e := index[name];
      assert IndexedAt(iid, e, name, es);
      SameJob(iid, rows, es, owner, k, e.seqNo - 1);
    }
  }

  /** Once every result is linked, no index is needed. */
  lemma AllSettled(iid: Bytes -> string, rows: seq<Job>, es: seq<Entry>, owner: map<int, int>)
    requires Named(iid, rows) && Owned(rows, es, owner) && Distinct(rows) && Once(owner) && AllLinked(rows, es)
    requires AllSent(rows, |rows|)
    ensures Settled(iid, rows, es, owner, map[])
  {
    forall k | k in owner ensures SettledAt(iid, rows, es, owner, map[], k) {
      var job := rows[owner[k]];
      assert LinkedAt(job, es);
      SameJob(iid, rows, es, owner, k, job.auditSeq.value - 1);
    }
  }

  /** Every report but one is settled. */
  ghost predicate SettledBut(iid: Bytes -> string, rows: seq<Job>, es: seq<Entry>, owner: map<int, int>,
                             index: map<string, Entry>, but: int)
  {
    forall k :: k in owner && k != but ==> SettledAt(iid, rows, es, owner, index, k)
  }

  /** Linking a job to its report settles that report. */
  lemma LinkSettles(iid: Bytes -> string, rows: seq<Job>, es: seq<Entry>, owner: map<int, int>, index: map<string, Entry>,
                    i: nat, at: int)
    requires i < |rows| && rows[i].result.Some? && rows[i].auditSeq.None?
    requires Named(iid, rows) && Owned(rows, es, owner) && AllLinked(rows, es)
    requires IsReport(es, at - 1) && rows[i].result == Some(es[at - 1].body)
    requires Distinct(rows) ==> SettledBut(iid, rows, es, owner, index, at - 1)
    ensures var after := rows[i := rows[i].(auditSeq := Some(at))];
      && Named(iid, after) && Owned(after, es, owner) && AllLinked(after, es)
      && (Distinct(after) <==> Distinct(rows))
      && (Distinct(after) ==> Settled(iid, after, es, owner, index))
  {
    var job := rows[i].(auditSeq := Some(at));
    var after := rows[i := job];
    Advanced(iid, rows, i, job, es, owner, index);
    if Distinct(rows) {
      forall k | k in owner ensures SettledAt(iid, after, es, owner, index, k) {
        if k == at - 1 {
          assert Apart(rows, owner[k], i);
        } else {
          assert SettledAt(iid, rows, es, owner, index, k);
        }
      }
    }
  }

  /** The job's report is one the log takes, wherever it comes. */
  ghost predicate Reportable(c: Codec, job: Job)
  {
    forall e: Entry :: e.kind == REPORT && e.seqNo > 0 && job.result == Some(e.body) ==> Acceptable(c, e)
  }

  /** Nothing outside the runner stands in the way of moving every report. */
  ghost predicate Unhindered(c: Codec, rows: seq<Job>, fates: int -> Fate, works: int -> bool)
  {
    Distinct(rows) && forall i :: 0 <= i < |rows| ==> Reportable(c, rows[i]) && fates(i).Lands? && works(i)
  }

  lemma StillUnhindered(c: Codec, was: seq<Job>, rows: seq<Job>, fates: int -> Fate, works: int -> bool)
    requires Unhindered(c, was, fates, works) && |was| == |rows|
    requires forall j :: 0 <= j < |rows| ==> SameJobAt(was, rows, j)
    ensures Unhindered(c, rows, fates, works)
  {
    forall i, j | 0 <= i < |rows| && 0 <= j < |rows| ensures Apart(rows, i, j) {
      assert Apart(was, i, j) && SameJobAt(was, rows, i) && SameJobAt(was, rows, j);
    }
    forall i | 0 <= i < |rows| ensures Reportable(c, rows[i]) && fates(i).Lands? && works(i) {
      assert Reportable(c, was[i]) && SameJobAt(was, rows, i);
    }
  }

  /** Its link aside, job `j` is the same. */
  predicate SameJobAt(was: seq<Job>, rows: seq<Job>, j: int)
    requires 0 <= j < |rows| && j < |was|
  {
    rows[j].iid == was[j].iid && rows[j].result == was[j].result
  }

  class Runner {
    const log: Log
    const iid: Bytes -> string
    var rows: seq<Job>
    var healthy: bool
    ghost var owner: map<int, int>

    ghost predicate Sound()
      reads this, log
    {
      && log.Valid() && Named(iid, rows)
      && Owned(rows, log.truth.stored, owner) && AllLinked(rows, log.truth.stored)
      && (Distinct(rows) ==> Once(owner))
    }

    ghost predicate Valid()
      reads this, log
    {
      && Sound()
      && (healthy && Distinct(rows) ==> Settled(iid, rows, log.truth.stored, owner, map[]))
    }

    /** What flushing keeps, with the index it was given. */
    ghost predicate Flushing(index: map<string, Entry>)
      reads this, log
    {
      && Sound() && IndexHolds(iid, index, log.truth.stored)
      && (Distinct(rows) ==> Settled(iid, rows, log.truth.stored, owner, index))
    }

    constructor (log: Log, iid: Bytes -> string)
      requires log.Valid() && forall k :: !IsReport(log.truth.stored, k)
      ensures Valid() && rows == [] && !healthy
    {
      this.log, this.iid, rows, healthy, owner := log, iid, [], false, map[];
    }

    /** A job is admitted. */
    method Admit(name: string)
      requires Valid()
      modifies `rows
      ensures Valid() && rows == old(rows) + [Job(name, None, None)]
    {
      Widened(rows, Job(name, None, None));
      rows := rows + [Job(name, None, None)];
    }

    /** A job's first result is kept. */
    method Save(i: nat, result: Bytes)
      requires Valid() && i < |rows| && iid(result) == rows[i].iid != ""
      modifies `rows
      ensures Valid()
      ensures rows == if old(rows[i].result.None?) then old(rows)[i := old(rows[i]).(result := Some(result))] else old(rows)
    {
      if rows[i].result.None? {
        var job := rows[i].(result := Some(result));
        Advanced(iid, rows, i, job, log.truth.stored, owner, map[]);
        rows := rows[i := job];
      }
    }

    /** The report just appended is this job's. */
    ghost method Own(i: nat, index: map<string, Entry>, was: seq<Entry>, e: Entry)
      requires log.Valid() && log.truth.stored == was + [e] && Waiting(i) && rows[i].iid !in index
      requires e.kind == REPORT && rows[i].result == Some(e.body)
      requires Named(iid, rows) && Owned(rows, was, owner) && AllLinked(rows, was) && IndexHolds(iid, index, was)
      requires Distinct(rows) ==> Once(owner) && Settled(iid, rows, was, owner, index)
      modifies `owner
      ensures Sound() && Found(i, |was| + 1, index)
    {
      Appended(iid, rows, was, owner, index, i, e);
      owner := owner[|was| := i];
    }

    /** Writes one job's report to the log. */
    method Copy(i: nat, ghost index: map<string, Entry>, time: string, fate: Fate) returns (ok: bool, at: int)
      requires Flushing(index) && Waiting(i) && rows[i].iid !in index
      modifies log, `owner, `healthy
      ensures Sound() && healthy == (ok && old(healthy))
      ensures ok ==> Found(i, at, index)
      ensures (ok ==> !log.failed) && (!old(log.failed) && fate.Lands? && Reportable(log.codec, rows[i]) ==> ok)
    {
      ghost var was, e := log.truth.stored, log.Next(time, REPORT, rows[i].result.value);
      var entry;
      ok, entry := log.Append(time, REPORT, rows[i].result.value, fate);
      at := entry.seqNo;
      if log.truth.stored != was { Own(i, index, was, e); }
      if !ok { healthy := false; }
    }

    /** Looks the job's instruction up among the reports that recovery found.  What it finds is that very
        report, unless an instruction was used twice. */
    method Match(i: nat, index: map<string, Entry>) returns (ok: bool, at: int)
      requires Flushing(index) && Waiting(i) && rows[i].iid in index
      ensures ok ==> Found(i, at, index)
      ensures Distinct(rows) ==> ok
    {
      var entry := index[rows[i].iid];
      assert IndexedAt(iid, entry, rows[i].iid, log.truth.stored);
      assert entry.seqNo - 1 in owner;
      if Distinct(rows) { assert Apart(rows, owner[entry.seqNo - 1], i); }
      ok, at := entry.body == rows[i].result.value, entry.seqNo;
    }

    predicate Waiting(i: nat)
      reads this
    {
      i < |rows| && rows[i].result.Some? && rows[i].auditSeq.None?
    }

    /** The job's report is entry `at`, and every other report is settled. */
    ghost predicate Found(i: nat, at: int, index: map<string, Entry>)
      requires i < |rows|
      reads this, log
    {
      && IsReport(log.truth.stored, at - 1) && rows[i].result == Some(log.truth.stored[at - 1].body)
      && IndexHolds(iid, index, log.truth.stored)
      && (Distinct(rows) ==> SettledBut(iid, rows, log.truth.stored, owner, index, at - 1))
    }

    method Link(i: nat, at: int, ghost index: map<string, Entry>, works: bool) returns (ok: bool)
      requires Sound() && Waiting(i) && Found(i, at, index)
      modifies `rows, `healthy
      ensures Sound() && ok == works && healthy == (ok && old(healthy))
      ensures rows == if ok then old(rows)[i := old(rows[i]).(auditSeq := Some(at))] else old(rows)
      ensures ok ==> Flushing(index)
    {
      ok := works;
      if !ok { healthy := false; return; }
      LinkSettles(iid, rows, log.truth.stored, owner, index, i, at);
      rows := rows[i := rows[i].(auditSeq := Some(at))];
    }

    /** Moves one job's report into the log, or finds it there, and links it; `index` is empty but in recovery. */
    method FlushOne(i: nat, index: map<string, Entry>, time: string, fate: Fate, works: bool) returns (ok: bool, at: int)
      requires Flushing(index) && Waiting(i)
      modifies log, `rows, `healthy, `owner
      ensures Sound() && (healthy ==> old(healthy))
      ensures ok ==> Flushing(index) && healthy == old(healthy)
      ensures rows == if ok then old(rows)[i := old(rows[i]).(auditSeq := Some(at))] else old(rows)
      ensures !ok && healthy ==> index != map[]
      ensures !old(log.failed) && Distinct(old(rows)) && old(Reportable(log.codec, rows[i])) && fate.Lands? && works ==> ok && !log.failed
    {
      if rows[i].iid in index {
        ok, at := Match(i, index);
      } else {
        ok, at := Copy(i, index, time, fate);
      }
      if ok { ok := Link(i, at, index, works); }
    }

    method FlushNext(i: nat, index: map<string, Entry>, time: string, fate: Fate, works: bool) returns (ok: bool)
      requires Flushing(index) && i < |rows| && AllSent(rows, i)
      modifies log, `rows, `healthy, `owner
      ensures Sound() && |rows| == old(|rows|) && (healthy ==> old(healthy))
      ensures ok ==> Flushing(index) && AllSent(rows, i + 1) && healthy == old(healthy)
      ensures !ok && healthy ==> index != map[]
      ensures !old(log.failed) && Distinct(old(rows)) && old(Reportable(log.codec, rows[i])) && fate.Lands? && works ==> ok && !log.failed
      ensures forall j :: 0 <= j < |rows| ==> SameJobAt(old(rows), rows, j)
    {
      ok := true;
      if rows[i].result.Some? && rows[i].auditSeq.None? {
        var at;
        ghost var was := rows;
        ok, at := FlushOne(i, index, time, fate, works);
        assert ok ==> forall j :: 0 <= j < i ==> rows[j] == was[j];
      }
    }

    /** Moves every waiting report, in order, until something fails. */
    method FlushAll(index: map<string, Entry>, times: int -> string, fates: int -> Fate, works: int -> bool) returns (ok: bool)
      requires Flushing(index)
      modifies log, `rows, `healthy, `owner
      ensures Sound() && |rows| == old(|rows|) && (healthy ==> old(healthy))
      ensures ok ==> AllSent(rows, |rows|) && Flushing(map[]) && healthy == old(healthy)
      ensures !ok && healthy ==> index != map[]
      ensures !old(log.failed) && Unhindered(log.codec, old(rows), fates, works) ==> ok
    {
      var i := 0;
      while i < |rows|
        invariant !old(log.failed) && Unhindered(log.codec, old(rows), fates, works) ==>
          !log.failed && Unhindered(log.codec, rows, fates, works)
        invariant i <= |rows| == old(|rows|) && healthy == old(healthy)
        invariant Flushing(index) && AllSent(rows, i)
      {
        ghost var was := rows;
        ok := FlushNext(i, index, times(i), fates(i), works(i));
        if !ok { return; }
        if Unhindered(log.codec, was, fates, works) { StillUnhindered(log.codec, was, rows, fates, works); }
        i := i + 1;
      }
      ok := true;
      if Distinct(rows) { AllSettled(iid, rows, log.truth.stored, owner); }
    }

    method Flush(times: int -> string, fates: int -> Fate, works: int -> bool) returns (ok: bool)
      requires Valid()
      modifies log, `rows, `healthy, `owner
      ensures Valid() && |rows| == old(|rows|)
      ensures ok ==> AllSent(rows, |rows|)
      ensures !ok ==> !healthy
      ensures old(healthy) && !old(log.failed) && Unhindered(log.codec, old(rows), fates, works) ==> ok
    {
      if !healthy { return false; }
      ok := FlushAll(map[], times, fates, works);
    }

    /** Recovery's index of the reports in the log; of two that name one instruction it holds the later. */
    method BuildIndex(visited: seq<Entry>) returns (index: map<string, Entry>)
      requires Sound() && visited == log.truth.stored
      ensures IndexHolds(iid, index, visited) && Indexed(iid, index, visited, |visited|)
    {
      index := map[];
      var k := 0;
      while k < |visited|
        invariant k <= |visited| && IndexHolds(iid, index, visited) && Indexed(iid, index, visited, k)
      {
        var e := visited[k];
        assert AuditChain.Linked(log.codec, visited, k);
        if e.kind == REPORT && iid(e.body) != "" {
          assert IndexedAt(iid, e, iid(e.body), visited);
          index := index[iid(e.body) := e];
        }
        k := k + 1;
      }
    }

    /** A new process opens the log and flushes with the index; only if all goes well does it take jobs. */
    method Recover(times: int -> string, fates: int -> Fate, works: int -> bool) returns (ok: bool)
      requires Valid()
      modifies this, log
      ensures Valid() && |rows| == old(|rows|) && (ok <==> healthy)
      ensures ok ==> AllSent(rows, |rows|)
      ensures Readable(log.codec, old(log.disk)) && Unhindered(log.codec, old(rows), fates, works) ==> ok
    {
      healthy := false;
      var visited;
      ok, visited := Reopen();
      if !ok { return; }
      var index := BuildIndex(visited);
      if Distinct(rows) { IndexSettles(iid, rows, visited, owner, index); }
      healthy := true;
      ok := FlushAll(index, times, fates, works);
      healthy := ok;
    }

    method Reopen() returns (ok: bool, visited: seq<Entry>)
      requires Sound() && !healthy
      modifies log
      ensures Sound() && log.truth.stored == old(log.truth.stored)
      ensures ok ==> visited == log.truth.stored && !log.failed
      ensures ok <==> Readable(log.codec, old(log.disk))
    {
      ghost var stored, begun, tail, disk := log.truth.stored, log.truth.begun, log.truth.tail, log.disk;
      ghost var t;
      visited := [];
      ok, t := log.Open();
      if !ok { return; }
      ImageUnique(log.codec, disk, log.Entries(), log.truth.starts, t, stored, begun, tail);
      ok, visited := log.Walk();
    }
  }

  /** Of the first `n` jobs, every one that has a result is linked to an entry. */
  predicate AllSent(rows: seq<Job>, n: int)
  {
    forall i :: 0 <= i < n && i < |rows| && rows[i].result.Some? ==> rows[i].auditSeq.Some?
  }

  /** When instructions are distinct, a linked job's report is in the log exactly once. */
  lemma ExactlyOnce(iid: Bytes -> string, rows: seq<Job>, es: seq<Entry>, owner: map<int, int>, i: nat, k: int)
    requires Named(iid, rows) && Owned(rows, es, owner) && AllLinked(rows, es) && Distinct(rows) && Once(owner)
    requires i < |rows| && rows[i].auditSeq.Some?
    ensures IsReport(es, k) && iid(es[k].body) == rows[i].iid <==> k == rows[i].auditSeq.value - 1
  {
    assert LinkedAt(rows[i], es);
    if IsReport(es, k) && iid(es[k].body) == rows[i].iid {
      SameJob(iid, rows, es, owner, k, rows[i].auditSeq.value - 1);
    }
  }

  lemma Widened(rows: seq<Job>, job: Job)
    ensures Distinct(rows + [job]) ==> Distinct(rows)
  {
    if Distinct(rows + [job]) {
      forall i, j | 0 <= i < |rows| && 0 <= j < |rows| ensures Apart(rows, i, j) {
        assert Apart(rows + [job], i, j);
      }
    }
  }
}
