/** The tables of the Cloudflare verifier's ledger, the transactions on them, and what every run of
    transactions keeps: at most one admission is open, its snapshot and its report are held in chunks, and
    both are dropped when it is settled. */
module CloudflareModel {
  import opened ChunkTable

  datatype Option<T> = None | Some(value: T)

  /** A digest determines the text it was taken of. */
  datatype Hash = Hash(of: string)

  datatype State = Accepted | Committed | Reported | Expired | Interrupted

  datatype Member = Member(key: string, etag: string, size: int, format: string)

  /** What an admission is held for. */
  datatype Custody = Custody(snapshot: string, objects: seq<Member>)

  /** JSON of a custody as ASCII text, and the parser of it. */
  datatype Codec = Codec(encode: Custody -> string, parse: string -> Option<Custody>)

  predicate Ascii(s: string)
  {
    forall i :: 0 <= i < |s| ==> s[i] as int < 128
  }

  ghost predicate Faithful(c: Codec)
  {
    forall x :: c.parse(c.encode(x)) == Some(x) && c.encode(x) != [] && Ascii(c.encode(x))
  }

  datatype Meta = Meta(token: string, hash: string, iid: string, variant: string, pickup: int, start: int, state: State)

  datatype Data = Data(chunks: int, bytes: int, hash: Hash)

  /** A row of the admissions table; without data its custody reads as empty. */
  datatype Row = Row(meta: Meta, data: Option<Data>, nonce: string, authorization: string, until: int)

  datatype Out = Out(hash: string, bytes: int, chunks: int)

  /** The active name and the tables that depend on it. */
  datatype Db = Db(active: string, admissions: map<string, Row>, outbox: map<string, Out>, chunks: Chunks, custody: Chunks)

  const RETENTION := 30 * 86400
  const LEASE_GRACE := 900 + 120
  const DATA_CHUNK := 512 * 1024
  const BODY_CHUNK := 131072
  const MAX_BODY := 2 * 1024 * 1024
  const MAX_OBJECTS := 17033
  const DEADLINE := 1920
  const SKEW := 300
  const DAILY := 10

  predicate IsOpen(s: State)
  {
    s == Accepted || s == Committed
  }

  function DataOf(text: string): Data
  {
    Data(Count(|text|, DATA_CHUNK), |text|, Hash(text))
  }

  function OutOf(body: string, hash: string): Out
  {
    Out(hash, |body|, Count(|body|, BODY_CHUNK))
  }

  /** What the open admission's custody is, and the committed report's text and hash. */
  datatype Truth = Truth(custody: map<string, Custody>, bodies: map<string, (string, string)>)

  function Texts(c: Codec, custody: map<string, Custody>): (r: map<string, string>)
    ensures forall id :: id in r <==> id in custody
    ensures forall id :: id in r ==> r[id] == c.encode(custody[id])
  {
    map id | id in custody :: c.encode(custody[id])
  }

  function Bodies(bodies: map<string, (string, string)>): (r: map<string, string>)
    ensures forall id :: id in r <==> id in bodies
    ensures forall id :: id in r ==> r[id] == bodies[id].0
  {
    map id | id in bodies :: bodies[id].0
  }

  /** One admission's row agrees with what is held for it. */
  ghost predicate RowFits(c: Codec, active: string, row: Row, outbox: map<string, Out>, t: Truth, id: string)
  {
    && (IsOpen(row.meta.state) <==> id == active)
    && (id in t.custody <==> IsOpen(row.meta.state))
    && row.data == (if id in t.custody then Some(DataOf(c.encode(t.custody[id]))) else None)
    && (id in t.bodies <==> row.meta.state == Committed)
    && (id in t.bodies ==> t.bodies[id].0 != [] && id in outbox && outbox[id] == OutOf(t.bodies[id].0, t.bodies[id].1))
  }

  ghost predicate RowsFit(c: Codec, active: string, admissions: map<string, Row>, outbox: map<string, Out>, t: Truth)
  {
    && "" !in admissions && (active == "" || active in admissions)
    && (forall id :: id in admissions ==> RowFits(c, active, admissions[id], outbox, t, id))
    && (forall id :: id in t.custody ==> id in admissions)
    && (forall id :: id in t.bodies ==> id in admissions)
    && (forall id :: id in outbox ==> id in t.bodies)
  }

  /** The active name is the one open admission; custody is kept for it alone, and a report for it alone if it
      is committed. */
  ghost predicate Good(c: Codec, db: Db, t: Truth)
  {
    && Faithful(c) && RowsFit(c, db.active, db.admissions, db.outbox, t)
    && Holds(db.custody, Texts(c, t.custody), DATA_CHUNK)
    && Holds(db.chunks, Bodies(t.bodies), BODY_CHUNK)
  }

  lemma RowOf(c: Codec, db: Db, t: Truth, id: string)
    requires Good(c, db, t) && id in db.admissions
    ensures RowFits(c, db.active, db.admissions[id], db.outbox, t, id)
  {}

  // ------------------------------------------------------------------ consequences

  /** At most one admission is open, and it is the active one. */
  lemma OneOpen(c: Codec, db: Db, t: Truth, id: string, other: string)
    requires Good(c, db, t) && id in db.admissions && other in db.admissions
    requires IsOpen(db.admissions[id].meta.state) && IsOpen(db.admissions[other].meta.state)
    ensures id == other == db.active
  {
    RowOf(c, db, t, id);
    RowOf(c, db, t, other);
  }

  /** Report rows and chunks exist exactly for a committed admission. */
  lemma ReportsOfCommitted(c: Codec, db: Db, t: Truth, id: string)
    requires Good(c, db, t)
    ensures id in db.outbox <==> id in db.admissions && db.admissions[id].meta.state == Committed
    ensures (exists n :: (id, n) in db.chunks) <==> id in db.admissions && db.admissions[id].meta.state == Committed
  {
    if id in db.admissions || id in db.outbox { RowOf(c, db, t, id); }
    if n :| (id, n) in db.chunks { assert id in Bodies(t.bodies); RowOf(c, db, t, id); }
    if id in t.bodies {
      RowOf(c, db, t, id);
      var text := Bodies(t.bodies)[id];
      CountCovers(|text|, BODY_CHUNK);
      assert HoldsAt(db.chunks, text, BODY_CHUNK, id, 0);
    }
  }

  /** Snapshots and objects are kept exactly for the open admission. */
  lemma CustodyOfOpen(c: Codec, db: Db, t: Truth, id: string)
    requires Good(c, db, t)
    ensures (exists n :: (id, n) in db.custody) <==> id != "" && id == db.active
  {
    if n :| (id, n) in db.custody { assert id in Texts(c, t.custody); RowOf(c, db, t, id); }
    if id != "" && id == db.active {
      RowOf(c, db, t, id);
      var text := Texts(c, t.custody)[id];
      CountCovers(|text|, DATA_CHUNK);
      assert HoldsAt(db.custody, text, DATA_CHUNK, id, 0);
    }
  }

  // ------------------------------------------------------------------ what each operation keeps

  lemma NothingHeld(c: Codec, db: Db, t: Truth, id: string)
    requires Good(c, db, t) && db.active == ""
    ensures id !in t.custody && id !in t.bodies
  {
    if id in db.admissions { RowOf(c, db, t, id); }
  }

  lemma AdmitRows(c: Codec, admissions: map<string, Row>, outbox: map<string, Out>, t: Truth, id: string, row: Row, x: Custody)
    requires RowsFit(c, "", admissions, outbox, t) && id != "" && id !in admissions
    requires row.meta.state == Accepted && row.data == Some(DataOf(c.encode(x)))
    ensures RowsFit(c, id, admissions[id := row], outbox, t.(custody := t.custody[id := x]))
    ensures Texts(c, t.custody[id := x]) == Texts(c, t.custody)[id := c.encode(x)]
  {
    var t', after := t.(custody := t.custody[id := x]), admissions[id := row];
    forall k | k in after ensures RowFits(c, id, after[k], outbox, t', k) {
      if k != id { assert RowFits(c, "", admissions[k], outbox, t, k); }
    }
  }

  lemma CommitRows(c: Codec, admissions: map<string, Row>, outbox: map<string, Out>, t: Truth, id: string, row: Row, body: string, hash: string)
    requires RowsFit(c, id, admissions, outbox, t) && id in admissions && admissions[id].meta.state == Accepted
    requires row.meta.state == Committed && row.data == admissions[id].data && body != []
    ensures RowsFit(c, id, admissions[id := row], outbox[id := OutOf(body, hash)], t.(bodies := t.bodies[id := (body, hash)]))
    ensures Bodies(t.bodies[id := (body, hash)]) == Bodies(t.bodies)[id := body] && id !in t.bodies
  {
    var t', after := t.(bodies := t.bodies[id := (body, hash)]), admissions[id := row];
    assert RowFits(c, id, admissions[id], outbox, t, id);
    forall k | k in after
      ensures RowFits(c, id, after[k], outbox[id := OutOf(body, hash)], t', k)
    {
      assert RowFits(c, id, admissions[k], outbox, t, k);
    }
  }

  /** Settling the open admission, or one that was settled already while none is open. */
  lemma SettleRows(c: Codec, active: string, admissions: map<string, Row>, outbox: map<string, Out>, t: Truth, id: string, row: Row)
    requires RowsFit(c, active, admissions, outbox, t) && id in admissions && (id == active || active == "")
    requires !IsOpen(row.meta.state) && row.data == None
    ensures RowsFit(c, "", admissions[id := row], outbox - {id}, Truth(t.custody - {id}, t.bodies - {id}))
  {
    var t', after := Truth(t.custody - {id}, t.bodies - {id}), admissions[id := row];
    forall k | k in after ensures RowFits(c, "", after[k], outbox - {id}, t', k)
    {
      assert RowFits(c, active, admissions[k], outbox, t, k);
    }
  }

  /** Dropping settled admissions. */
  lemma PruneRows(c: Codec, active: string, admissions: map<string, Row>, outbox: map<string, Out>, t: Truth, kept: map<string, Row>)
    requires RowsFit(c, active, admissions, outbox, t)
    requires forall id :: id in kept ==> id in admissions && kept[id] == admissions[id]
    requires forall id :: id in admissions && id !in kept ==> !IsOpen(admissions[id].meta.state)
    ensures RowsFit(c, active, kept, outbox, t) && forall id :: id in t.custody ==> id in kept
  {
    forall id | id in admissions && id !in kept ensures id !in t.custody && id !in t.bodies && id != active {
      assert RowFits(c, active, admissions[id], outbox, t, id);
    }
    forall id | id in kept ensures RowFits(c, active, kept[id], outbox, t, id) {
      assert RowFits(c, active, admissions[id], outbox, t, id);
    }
  }

  // ------------------------------------------------------------------ transactions

  predicate Stale(row: Row, now: int)
  {
    row.until < now && !IsOpen(row.meta.state)
  }

  datatype Order = Order(id: string, token: string, hash: string, iid: string, variant: string, nonce: string, authorization: string,
                         listing: string, expires: int, acceptedAt: int)

  predicate InTimeFor(o: Order, now: int, pickup: int)
  {
    now <= o.expires && now <= o.acceptedAt + 86400 && now <= pickup + DEADLINE
  }

  function RowFor(c: Codec, o: Order, x: Custody, now: int, pickup: int, start: int): Row
  {
    Row(Meta(o.token, o.hash, o.iid, o.variant, pickup, start, Accepted), Some(DataOf(c.encode(x))), o.nonce, o.authorization,
        now + RETENTION)
  }

  function CommittedRow(row: Row, now: int): Row
  {
    row.(meta := row.meta.(state := Committed), until := now + RETENTION)
  }

  function SettledRow(row: Row, meta: Meta, final: State, now: int): Row
  {
    row.(meta := meta.(state := final), data := None, until := now + RETENTION)
  }

  /** The tables, and what is held in them. */
  datatype Snap = Snap(db: Db, t: Truth)

  const EMPTY := Snap(Db("", map[], map[], map[], map[]), Truth(map[], map[]))

  datatype Action =
    | Admitting(o: Order, x: Custody, now: int, pickup: int, start: int)
    | Committing(id: string, body: string, hash: string, now: int)
    | Settling(id: string, meta: Meta, final: State, now: int)
    | Pruning(now: int)

  ghost predicate AdmitStep(c: Codec, s: Snap, s': Snap, o: Order, x: Custody, now: int, pickup: int, start: int)
  {
    && s.db.active == "" && o.id != "" && o.id !in s.db.admissions
    && Began(s.db.custody, s'.db.custody, o.id, c.encode(x), DATA_CHUNK, Count(|c.encode(x)|, DATA_CHUNK))
    && s' == Snap(s.db.(active := o.id, admissions := s.db.admissions[o.id := RowFor(c, o, x, now, pickup, start)],
                        custody := s'.db.custody),
                  s.t.(custody := s.t.custody[o.id := x]))
  }

  ghost predicate CommitStep(s: Snap, s': Snap, id: string, body: string, hash: string, now: int)
  {
    && id == s.db.active && id in s.db.admissions && s.db.admissions[id].meta.state == Accepted && body != []
    && Began(s.db.chunks, s'.db.chunks, id, body, BODY_CHUNK, Count(|body|, BODY_CHUNK))
    && s' == Snap(s.db.(admissions := s.db.admissions[id := CommittedRow(s.db.admissions[id], now)],
                        outbox := s.db.outbox[id := OutOf(body, hash)], chunks := s'.db.chunks),
                  s.t.(bodies := s.t.bodies[id := (body, hash)]))
  }

  /** What settling writes. */
  function Settled(s: Snap, id: string, meta: Meta, final: State, now: int): Snap
    requires id in s.db.admissions
  {
    Snap(Db("", s.db.admissions[id := SettledRow(s.db.admissions[id], meta, final, now)], s.db.outbox - {id},
            Without(s.db.chunks, id), Without(s.db.custody, id)),
         Truth(s.t.custody - {id}, s.t.bodies - {id}))
  }

  /** The admission settled is the open one, or none is open. */
  ghost predicate SettleStep(s: Snap, s': Snap, id: string, meta: Meta, final: State, now: int)
  {
    && id in s.db.admissions && (id == s.db.active || s.db.active == "") && !IsOpen(final)
    && s' == Settled(s, id, meta, final, now)
  }

  function KeptRows(db: Db, now: int): (r: map<string, Row>)
    ensures forall id :: id in r ==> id in db.admissions && r[id] == db.admissions[id]
    ensures forall id :: id in db.admissions && id !in r ==> Stale(db.admissions[id], now)
    ensures forall id :: id in r ==> !(Stale(db.admissions[id], now) && id !in db.outbox && id != db.active)
  {
    map id | id in db.admissions && !(Stale(db.admissions[id], now) && id !in db.outbox && id != db.active) :: db.admissions[id]
  }

  /** The rows that are not stale. */
  function FreshRows(admissions: map<string, Row>, now: int): map<string, Row>
  {
    map id | id in admissions && !Stale(admissions[id], now) :: admissions[id]
  }

  function KeptChunks(chunks: Chunks, kept: map<string, Row>): (r: Chunks)
    ensures forall k :: k in r <==> k in chunks && k.0 in kept
    ensures forall k :: k in r ==> r[k] == chunks[k]
  {
    map k | k in chunks && k.0 in kept :: chunks[k]
  }

  function Pruned(s: Snap, now: int): Snap
  {
    var kept := KeptRows(s.db, now);
    Snap(s.db.(admissions := kept, custody := KeptChunks(s.db.custody, kept)), s.t)
  }

  ghost predicate PruneStep(s: Snap, s': Snap, now: int)
  {
    s' == Pruned(s, now)
  }

  ghost predicate Does(c: Codec, s: Snap, s': Snap, a: Action)
  {
    match a
    case Admitting(o, x, now, pickup, start) => AdmitStep(c, s, s', o, x, now, pickup, start)
    case Committing(id, body, hash, now) => CommitStep(s, s', id, body, hash, now)
    case Settling(id, meta, final, now) => SettleStep(s, s', id, meta, final, now)
    case Pruning(now) => PruneStep(s, s', now)
  }

  ghost predicate Step(c: Codec, s: Snap, s': Snap)
  {
    exists a :: Does(c, s, s', a)
  }

  ghost predicate Follows(c: Codec, run: seq<Snap>, i: int)
    requires 0 <= i < |run| - 1
  {
    Step(c, run[i], run[i + 1])
  }

  ghost predicate IsRun(c: Codec, run: seq<Snap>)
  {
    |run| > 0 && run[0] == EMPTY && forall i :: 0 <= i < |run| - 1 ==> Follows(c, run, i)
  }

  lemma RunGrows(c: Codec, run: seq<Snap>, s: Snap, a: Action)
    requires IsRun(c, run) && Does(c, run[|run| - 1], s, a)
    ensures IsRun(c, run + [s])
  {
    var after := run + [s];
    forall i | 0 <= i < |after| - 1 ensures Follows(c, after, i) {
      if i < |run| - 1 {
        assert Follows(c, run, i);
      } else {
        assert Does(c, run[|run| - 1], s, a);
        assert Step(c, after[i], after[i + 1]);
      }
    }
  }

  // ------------------------------------------------------------------ what every run keeps

  lemma AdmitKeeps(c: Codec, s: Snap, s': Snap, o: Order, x: Custody, now: int, pickup: int, start: int)
    requires Good(c, s.db, s.t) && AdmitStep(c, s, s', o, x, now, pickup, start)
    ensures Good(c, s'.db, s'.t)
  {
    NothingHeld(c, s.db, s.t, o.id);
    AdmitRows(c, s.db.admissions, s.db.outbox, s.t, o.id, RowFor(c, o, x, now, pickup, start), x);
    Written(s.db.custody, s'.db.custody, o.id, c.encode(x), DATA_CHUNK, Texts(c, s.t.custody));
  }

  lemma CommitKeeps(c: Codec, s: Snap, s': Snap, id: string, body: string, hash: string, now: int)
    requires Good(c, s.db, s.t) && CommitStep(s, s', id, body, hash, now)
    ensures Good(c, s'.db, s'.t)
  {
    CommitRows(c, s.db.admissions, s.db.outbox, s.t, id, CommittedRow(s.db.admissions[id], now), body, hash);
    Written(s.db.chunks, s'.db.chunks, id, body, BODY_CHUNK, Bodies(s.t.bodies));
  }

  lemma WithoutOne(c: Codec, t: Truth, id: string)
    ensures Texts(c, t.custody - {id}) == Texts(c, t.custody) - {id} && Bodies(t.bodies - {id}) == Bodies(t.bodies) - {id}
  {}

  lemma SettleKeeps(c: Codec, s: Snap, s': Snap, id: string, meta: Meta, final: State, now: int)
    requires Good(c, s.db, s.t) && SettleStep(s, s', id, meta, final, now)
    ensures Good(c, s'.db, s'.t)
  {
    SettleRows(c, s.db.active, s.db.admissions, s.db.outbox, s.t, id, SettledRow(s.db.admissions[id], meta, final, now));
    WithoutOne(c, s.t, id);
    Removed(s.db.custody, id, DATA_CHUNK, Texts(c, s.t.custody));
    Removed(s.db.chunks, id, BODY_CHUNK, Bodies(s.t.bodies));
  }

  lemma PruneKeeps(c: Codec, s: Snap, s': Snap, now: int)
    requires Good(c, s.db, s.t) && PruneStep(s, s', now)
    ensures Good(c, s'.db, s'.t) && s'.db.custody == s.db.custody
  {
    var kept := KeptRows(s.db, now);
    PruneRows(c, s.db.active, s.db.admissions, s.db.outbox, s.t, kept);
    forall k | k in s.db.custody ensures k.0 in kept { assert k.0 in Texts(c, s.t.custody); }
    assert KeptChunks(s.db.custody, kept) == s.db.custody;
  }

  /** No custody goes with the settled admissions. */
  lemma PrunedKeepsAll(c: Codec, s: Snap, now: int)
    requires Good(c, s.db, s.t)
    ensures Pruned(s, now).db.custody == s.db.custody
  {
    PruneKeeps(c, s, Pruned(s, now), now);
  }

  /** Every stale admission goes: none of them is active or has a report waiting. */
  lemma StaleGo(c: Codec, db: Db, t: Truth, now: int)
    requires Good(c, db, t)
    ensures KeptRows(db, now) == FreshRows(db.admissions, now)
  {
    forall id | id in db.admissions && Stale(db.admissions[id], now) ensures id !in KeptRows(db, now) {
      RowOf(c, db, t, id);
    }
  }

  lemma StepKeeps(c: Codec, s: Snap, s': Snap)
    requires Good(c, s.db, s.t) && Step(c, s, s')
    ensures Good(c, s'.db, s'.t)
  {
    var a :| Does(c, s, s', a);
    match a
    case Admitting(o, x, now, pickup, start) => AdmitKeeps(c, s, s', o, x, now, pickup, start);
    case Committing(id, body, hash, now) => CommitKeeps(c, s, s', id, body, hash, now);
    case Settling(id, meta, final, now) => SettleKeeps(c, s, s', id, meta, final, now);
    case Pruning(now) => PruneKeeps(c, s, s', now);
  }

  lemma NextKeeps(c: Codec, run: seq<Snap>, i: nat, s: Snap, s': Snap)
    requires IsRun(c, run) && i + 1 < |run| && s == run[i] && s' == run[i + 1] && Good(c, s.db, s.t)
    ensures Good(c, s'.db, s'.t)
  {
    assert Follows(c, run, i);
    StepKeeps(c, s, s');
  }

  lemma EmptyIsGood(c: Codec)
    requires Faithful(c)
    ensures Good(c, EMPTY.db, EMPTY.t)
  {}

  /** After any run of transactions the tables agree with what is held. */
  lemma {:induction false} RunKeeps(c: Codec, run: seq<Snap>, i: nat, s: Snap)
    requires Faithful(c) && IsRun(c, run) && i < |run| && s == run[i]
    ensures Good(c, s.db, s.t)
  {
    if i == 0 {
      EmptyIsGood(c);
    } else {
      RunKeeps(c, run, i - 1, run[i - 1]);
      NextKeeps(c, run, i - 1, run[i - 1], s);
    }
  }

  /** Settling any other admission than the open one leaves the open one without its name: the tables no
      longer agree, whatever is held. */
  lemma OtherSettlingBreaks(c: Codec, s: Snap, id: string, meta: Meta, final: State, now: int, t: Truth)
    requires Good(c, s.db, s.t) && id in s.db.admissions && s.db.active != "" && id != s.db.active
    ensures !Good(c, Settled(s, id, meta, final, now).db, t)
  {
    RowOf(c, s.db, s.t, s.db.active);
    var after := Settled(s, id, meta, final, now).db;
    assert after.admissions[s.db.active] == s.db.admissions[s.db.active];
    assert !RowFits(c, "", after.admissions[s.db.active], after.outbox, t, s.db.active);
  }
}
