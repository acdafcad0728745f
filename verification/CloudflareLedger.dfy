/** The Cloudflare verifier's ledger: one durable object whose operations are transactions. */
module CloudflareLedger {
  import opened ChunkTable
  import opened CloudflareModel

  datatype Admittance = Fresh | Known | Refused

  datatype Found = Missing | Broken | Is(meta: Meta, custody: Custody)

  predicate IsHex(c: char)
  {
    '0' <= c <= '9' || 'a' <= c <= 'f'
  }

  /** A report of ASCII text within the limit, and a digest in hexadecimal. */
  predicate Sendable(body: string, hash: string)
  {
    0 < |body| <= MAX_BODY && Ascii(body) && |hash| == 64 && forall i :: 0 <= i < |hash| ==> IsHex(hash[i])
  }

  class Ledger {
    const codec: Codec
    var clock: int
    var active: string
    var admissions: map<string, Row>
    var daily: map<(string, int), int>
    var outbox: map<string, Out>
    var chunks: Chunks
    var custody: Chunks
    var lease: int
    var woken: int
    var task: string

    /** Every state of the tables so far, with the custody and reports held in them. */
    ghost var history: seq<Snap>

    function View(): Db
      reads `active, `admissions, `outbox, `chunks, `custody
    {
      Db(active, admissions, outbox, chunks, custody)
    }

    /** The tables came about by transactions. */
    ghost predicate Lawful()
      reads `active, `admissions, `outbox, `chunks, `custody, `history
    {
      Faithful(codec) && IsRun(codec, history) && history[|history| - 1].db == View()
    }

    ghost function Held(): Truth
      requires |history| > 0
      reads `history
    {
      history[|history| - 1].t
    }

    constructor (codec: Codec)
      requires Faithful(codec)
      ensures Lawful() && this.codec == codec && Held() == Truth(map[], map[]) && admissions == map[] && lease == 0
    {
      this.codec := codec;
      clock, active, admissions, daily, outbox, chunks, custody := 0, "", map[], map[], map[], map[], map[];
      lease, woken, task, history := 0, 0, "", [EMPTY];
    }

    /** A transaction has been made. */
    ghost method Took(t: Truth, a: Action)
      requires |history| > 0 && IsRun(codec, history) && Does(codec, history[|history| - 1], Snap(View(), t), a) && Faithful(codec)
      modifies `history
      ensures Lawful() && Held() == t && history == old(history) + [Snap(View(), t)]
    {
      RunGrows(codec, history, Snap(View(), t), a);
      history := history + [Snap(View(), t)];
    }

    lemma Agrees()
      requires Lawful()
      ensures Good(codec, View(), Held())
    {
      RunKeeps(codec, history, |history| - 1, Snap(View(), Held()));
    }

    /** Time may go back by five minutes at most. */
    predicate InTime(now: int)
      reads `clock
    {
      now >= clock - SKEW
    }

    function Later(now: int): int
      reads `clock
    {
      if now > clock then now else clock
    }

    method Observe(now: int) returns (ok: bool)
      modifies `clock
      ensures ok == old(InTime(now)) && clock == if ok then old(Later(now)) else old(clock)
    {
      ok := InTime(now);
      if ok { clock := Later(now); }
    }

    // ---------------------------------------------------------------- waking and leasing

    /** When the present task began: queued, or leased. */
    function Marker(): int
      reads `task, `lease, `woken
    {
      if task != "queued" && lease != 0 then lease else woken
    }

    /** A task is queued unless one was in the last minute, or one is queued or running and not yet overdue. */
    method Wake(now: int) returns (ok: bool)
      modifies `clock, `woken, `task
      ensures ok <==> old(InTime(now)) && old(woken) <= now - 60 && (old(task) != "" ==> now > old(Marker()) + LEASE_GRACE)
      ensures woken == (if ok then now else old(woken)) && task == (if ok then "queued" else old(task))
      ensures clock == if old(InTime(now)) then old(Later(now)) else old(clock)
    {
      ok := false;
      if !InTime(now) { return; }
      clock := Later(now);
      var marker := if task == "queued" then woken else if lease != 0 then lease else woken;
      if woken > now - 60 || (task != "" && now <= marker + LEASE_GRACE) { return; }
      woken, task, ok := now, "queued", true;
    }

    /** The lease is taken when nobody has it, or whoever had it is overdue. */
    method Claim(now: int) returns (ok: bool)
      modifies `clock, `lease, `task
      ensures ok <==> old(InTime(now)) && (old(lease) == 0 || now > old(lease) + LEASE_GRACE)
      ensures lease == (if ok then now else old(lease)) && task == (if ok then "running" else old(task))
      ensures clock == if old(InTime(now)) then old(Later(now)) else old(clock)
    {
      ok := false;
      if !InTime(now) { return; }
      clock := Later(now);
      if lease != 0 && now <= lease + LEASE_GRACE { return; }
      lease, task, ok := now, "running", true;
    }

    method Release()
      modifies `lease, `task
      ensures lease == 0 && task == ""
    {
      lease, task := 0, "";
    }

    // ---------------------------------------------------------------- records

    /** An admission as it was admitted, until it is settled; then its custody reads as empty. */
    method Record(id: string) returns (r: Found)
      requires Lawful()
      ensures r == Expected(id)
    {
      if id !in admissions { return Missing; }
      Agrees();
      RowOf(codec, View(), Held(), id);
      var row := admissions[id];
      if row.data.None? { return Is(row.meta, Custody("", [])); }
      var data := row.data.value;
      ghost var texts := Texts(codec, Held().custody);
      CountCovers(|texts[id]|, DATA_CHUNK);
      if data.chunks < 1 { return Broken; }
      var ok, body := Read(custody, id, data.chunks, DATA_CHUNK, texts);
      if !ok || |body| != data.bytes || Hash(body) != data.hash { return Broken; }
      var payload := codec.parse(body);
      if payload.None? || |payload.value.objects| > MAX_OBJECTS { return Broken; }
      r := Is(row.meta, payload.value);
    }

    /** More than 17033 objects can be admitted, but not read again. */
    ghost function Expected(id: string): Found
      requires |history| > 0
      reads `admissions, `history
    {
      if id !in admissions then Missing
      else if id !in Held().custody then Is(admissions[id].meta, Custody("", []))
      else if |Held().custody[id].objects| > MAX_OBJECTS then Broken
      else Is(admissions[id].meta, Held().custody[id])
    }

    /** The one open admission. */
    method Active() returns (r: Found)
      requires Lawful()
      ensures r == if active == "" then Missing else Expected(active)
    {
      if active == "" { return Missing; }
      r := Record(active);
    }

    // ---------------------------------------------------------------- admission

    predicate MayAdmit(o: Order, now: int, pickup: int)
      reads `clock, `active, `admissions, `daily
    {
      && InTime(now) && o.id !in admissions && active == "" && InTimeFor(o, now, pickup)
      && Today(o.listing, now) < DAILY && Unused(o)
    }

    predicate Unused(o: Order)
      reads `admissions
    {
      forall id :: id in admissions ==>
        admissions[id].meta.iid != o.iid && admissions[id].nonce != o.nonce && admissions[id].authorization != o.authorization
    }

    function Today(listing: string, now: int): int
      reads `daily
    {
      if (listing, now / 86400) in daily then daily[(listing, now / 86400)] else 0
    }

    /** One transaction: the tables change only for a fresh order, and for a known one only the clock. */
    method Admit(o: Order, x: Custody, now: int, pickup: int, start: int) returns (r: Admittance)
      requires Lawful() && o.id != ""
      modifies `clock, `active, `admissions, `daily, `custody, `history
      ensures Lawful()
      ensures r == Fresh <==> old(MayAdmit(o, now, pickup))
      ensures r == Fresh ==> active == o.id && Held() == old(Held()).(custody := old(Held()).custody[o.id := x])
      ensures r == Fresh ==> admissions == old(admissions)[o.id := RowFor(codec, o, x, now, pickup, start)]
      ensures r == Fresh ==> daily == old(daily)[(o.listing, now / 86400) := old(Today(o.listing, now)) + 1]
      ensures r == Known <==> && old(InTime(now)) && o.id in old(admissions) && old(Expected(o.id)) != Broken
                              && old(admissions)[o.id].meta.token == o.token && old(admissions)[o.id].meta.hash == o.hash
      ensures r != Fresh ==> View() == old(View()) && history == old(history) && daily == old(daily)
      ensures clock == if r == Refused then old(clock) else old(Later(now))
    {
      if !InTime(now) { return Refused; }
      var existing := Record(o.id);
      if existing != Missing {
        if existing == Broken || existing.meta.token != o.token || existing.meta.hash != o.hash { return Refused; }
        clock := Later(now);
        return Known;
      }
      if active != "" || !InTimeFor(o, now, pickup) { return Refused; }
      var n := Today(o.listing, now);
      if n >= DAILY || !Unused(o) { return Refused; }
      Insert(o, x, now, pickup, start);
      daily := daily[(o.listing, now / 86400) := n + 1];
      clock := Later(now);
      r := Fresh;
    }

    /** The row, its custody in chunks, and the active name. */
    method Insert(o: Order, x: Custody, now: int, pickup: int, start: int)
      requires Lawful() && o.id != "" && active == "" && o.id !in admissions
      modifies `admissions, `active, `custody, `history
      ensures Lawful() && active == o.id && Held() == old(Held()).(custody := old(Held()).custody[o.id := x])
      ensures admissions == old(admissions)[o.id := RowFor(codec, o, x, now, pickup, start)]
    {
      custody := Write(custody, o.id, codec.encode(x), DATA_CHUNK);
      admissions := admissions[o.id := RowFor(codec, o, x, now, pickup, start)];
      active := o.id;
      Took(Held().(custody := Held().custody[o.id := x]), Admitting(o, x, now, pickup, start));
    }

    // ---------------------------------------------------------------- report

    predicate MayCommit(id: string, pickup: int, body: string, hash: string, now: int)
      reads `clock, `active, `admissions
    {
      && Sendable(body, hash) && InTime(now) && id == active && now <= pickup + DEADLINE
      && id in admissions && admissions[id].meta.state == Accepted
    }

    /** The report of the open admission is stored; it may be read until it is settled. */
    method Commit(id: string, pickup: int, body: string, hash: string, now: int) returns (ok: bool)
      requires Lawful()
      modifies `clock, `admissions, `outbox, `chunks, `history
      ensures Lawful()
      ensures ok <==> old(MayCommit(id, pickup, body, hash, now)) && old(Expected(id)) != Broken
      ensures ok ==> Held() == old(Held()).(bodies := old(Held()).bodies[id := (body, hash)])
      ensures ok ==> id in old(admissions) && admissions == old(admissions)[id := CommittedRow(old(admissions)[id], now)]
      ensures !ok ==> View() == old(View()) && history == old(history) && clock == old(clock)
    {
      ok := false;
      if !Sendable(body, hash) || !InTime(now) { return; }
      var current := Record(id);
      if !current.Is? || current.meta.state != Accepted || active != id || now > pickup + DEADLINE { return; }
      Store(id, body, hash, now);
      clock := Later(now);
      ok := true;
    }

    method Store(id: string, body: string, hash: string, now: int)
      requires Lawful() && id in admissions && id == active && admissions[id].meta.state == Accepted && body != []
      modifies `chunks, `outbox, `admissions, `history
      ensures Lawful() && Held() == old(Held()).(bodies := old(Held()).bodies[id := (body, hash)])
      ensures admissions == old(admissions)[id := CommittedRow(old(admissions)[id], now)]
    {
      chunks := Write(chunks, id, body, BODY_CHUNK);
      outbox := outbox[id := OutOf(body, hash)];
      admissions := admissions[id := CommittedRow(admissions[id], now)];
      Took(Held().(bodies := Held().bodies[id := (body, hash)]), Committing(id, body, hash, now));
    }

    /** The report exactly as it was committed. */
    method Body(id: string) returns (ok: bool, body: string, hash: string)
      requires Lawful()
      ensures ok <==> id in Held().bodies
      ensures ok ==> (body, hash) == Held().bodies[id]
    {
      ok, body, hash := false, "", "";
      Agrees();
      if id in admissions { RowOf(codec, View(), Held(), id); }
      if id !in outbox { return; }
      var d := outbox[id];
      ok, body := Read(chunks, id, d.chunks, BODY_CHUNK, Bodies(Held().bodies));
      ok, hash := ok && |body| == d.bytes, d.hash;
    }

    // ---------------------------------------------------------------- settlement

    /** Closes an admission and drops its custody and report. That keeps the tables lawful when it is the open
        one, or when none is open. */
    method Settle(id: string, meta: Meta, final: State, now: int) returns (ok: bool)
      requires Lawful() && !IsOpen(final)
      modifies `clock, `active, `admissions, `outbox, `chunks, `custody, `history
      ensures ok <==> old(InTime(now)) && id in old(admissions)
      ensures !ok ==> Lawful() && View() == old(View()) && history == old(history) && clock == old(clock)
      ensures ok ==> View() == Settled(old(Snap(View(), Held())), id, meta, final, now).db
      ensures ok && (id == old(active) || old(active) == "") ==>
        Lawful() && Held() == Truth(old(Held()).custody - {id}, old(Held()).bodies - {id})
    {
      if !InTime(now) || id !in admissions { return false; }
      ghost var proper, t := id == active || active == "", Held();
      chunks := Without(chunks, id);
      custody := Without(custody, id);
      outbox := outbox - {id};
      admissions := admissions[id := SettledRow(admissions[id], meta, final, now)];
      active := "";
      clock := Later(now);
      if proper { Took(Truth(t.custody - {id}, t.bodies - {id}), Settling(id, meta, final, now)); }
      ok := true;
    }

    /** Old settled admissions go, and nothing else. */
    method Prune(now: int)
      requires Lawful()
      modifies `admissions, `daily, `custody, `history
      ensures Lawful() && Held() == old(Held()) && View() == old(View()).(admissions := FreshRows(old(admissions), now))
    {
      DropMeans(now);
      Drop(now);
      daily := map k | k in daily && k.1 >= (now - RETENTION) / 86400 :: daily[k];
    }

    lemma DropMeans(now: int)
      requires Lawful()
      ensures Pruned(Snap(View(), Held()), now).db == View().(admissions := FreshRows(admissions, now))
    {
      Agrees();
      StaleGo(codec, View(), Held(), now);
      PrunedKeepsAll(codec, Snap(View(), Held()), now);
    }

    method Drop(now: int)
      requires Lawful()
      modifies `admissions, `custody, `history
      ensures Lawful() && View() == Pruned(old(Snap(View(), Held())), now).db && Held() == old(Held())
    {
      var kept := KeptRows(View(), now);
      admissions := kept;
      custody := KeptChunks(custody, kept);
      Took(Held(), Pruning(now));
    }
  }
}
