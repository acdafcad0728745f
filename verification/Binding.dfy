/** The bytes that content bindings hash: framed so that no two different lists of fields share them. */
module Binding {
  type Bytes = seq<int>

  const LIMIT := 0x1_0000_0000_0000_0000

  // ------------------------------------------------------------------ framing

  /** The last `k` bytes of a number, most significant first. */
  function Big(n: nat, k: nat): (r: Bytes)
    ensures |r| == k
  {
    if k == 0 then [] else Big(n / 256, k - 1) + [n % 256]
  }

  function Pow256(k: nat): nat
  {
    if k == 0 then 1 else 256 * Pow256(k - 1)
  }

  lemma {:induction false} BigInjective(n: nat, m: nat, k: nat)
    requires n < Pow256(k) && m < Pow256(k) && Big(n, k) == Big(m, k)
    ensures n == m
  {
    if k > 0 {
      assert Big(n, k)[..k - 1] == Big(n / 256, k - 1) && Big(m, k)[..k - 1] == Big(m / 256, k - 1);
      assert Big(n, k)[k - 1] == n % 256 && Big(m, k)[k - 1] == m % 256;
      BigInjective(n / 256, m / 256, k - 1);
    }
  }

  const WORD := [0, 0, 0, 0, 0, 0, 0, 0]

  function U64(n: nat): (r: Bytes)
    ensures |r| == 8
  {
    Big(n, |WORD|)
  }

  function Frame(b: Bytes): Bytes
  {
    U64(|b|) + b
  }

  lemma NumberSplit(n: nat, x: Bytes, m: nat, y: Bytes)
    requires n < LIMIT && m < LIMIT && U64(n) + x == U64(m) + y
    ensures n == m && x == y
  {
    assert (U64(n) + x)[..8] == U64(n) && (U64(m) + y)[..8] == U64(m);
    assert (U64(n) + x)[8..] == x && (U64(m) + y)[8..] == y;
    BigInjective(n, m, 8);
  }

  lemma FrameSplit(a: Bytes, x: Bytes, b: Bytes, y: Bytes)
    requires |a| < LIMIT && |b| < LIMIT && Frame(a) + x == Frame(b) + y
    ensures a == b && x == y
  {
    assert Frame(a) + x == U64(|a|) + (a + x) && Frame(b) + y == U64(|b|) + (b + y);
    NumberSplit(|a|, a + x, |b|, b + y);
    assert (a + x)[..|a|] == a && (b + y)[..|b|] == b && (a + x)[|a|..] == x && (b + y)[|b|..] == y;
  }

  /** Bytes of one fixed length need no frame. */
  lemma FixedSplit(a: Bytes, x: Bytes, b: Bytes, y: Bytes)
    requires |a| == |b| && a + x == b + y
    ensures a == b && x == y
  {
    assert (a + x)[..|a|] == a && (b + y)[..|b|] == b && (a + x)[|a|..] == x && (b + y)[|b|..] == y;
  }

  // ------------------------------------------------------------------ members

  datatype Member = Member(identity: Bytes, size: nat, etag: Bytes, version: Bytes, table: bool)

  datatype Commitment = Commitment(tag: Bytes, digest: Bytes)

  /** What the platform's own limits give: lengths and sizes below 2^64. */
  predicate Small(m: Member)
  {
    |m.identity| < LIMIT && m.size < LIMIT && |m.etag| < LIMIT && |m.version| < LIMIT
  }

  const QUOTE := 34
  const DIGEST := 32

  /** Without the quotes at either end. */
  function TrimLeft(b: Bytes): (r: Bytes)
    ensures |r| <= |b| && (r != [] ==> r[0] != QUOTE)
  {
    if b != [] && b[0] == QUOTE then TrimLeft(b[1..]) else b
  }

  function TrimRight(b: Bytes): (r: Bytes)
    ensures |r| <= |b| && (r != [] ==> r[|r| - 1] != QUOTE)
  {
    if b != [] && b[|b| - 1] == QUOTE then TrimRight(b[..|b| - 1]) else b
  }

  function Trim(b: Bytes): (r: Bytes)
    ensures |r| <= |b|
  {
    TrimRight(TrimLeft(b))
  }

  // ------------------------------------------------------------------ the content binding

  predicate Known(tag: Bytes)
  {
    tag == Full() || tag == ZipEntries() || tag == DecodedPrefix() || tag == UnreadTag()
  }

  function Full(): Bytes { [102, 117, 108, 108] }

  function ZipEntries(): Bytes { [122, 105, 112, 95, 101, 110, 116, 114, 105, 101, 115] }

  function DecodedPrefix(): Bytes { [100, 101, 99, 111, 100, 101, 100, 95, 112, 114, 101, 102, 105, 120] }

  function UnreadTag(): Bytes { [117, 110, 114, 101, 97, 100] }

  /** One member with its commitment. */
  datatype Bound = Bound(member: Member, commitment: Commitment)

  predicate Accepted(b: Bound)
  {
    && Small(b.member) && |b.commitment.digest| == DIGEST
    && (if b.member.table then b.commitment.tag == Full() else Known(b.commitment.tag))
  }

  function Part(b: Bound): Bytes
  {
    Frame(b.member.identity) + (U64(b.member.size) + Tail(b))
  }

  /** A table's digest stands bare; of other members the tag is told too. */
  function Tail(b: Bound): Bytes
  {
    if b.member.table then b.commitment.digest else Frame(b.commitment.tag) + Frame(b.commitment.digest)
  }

  function Preimage(bs: seq<Bound>): Bytes
  {
    if bs == [] then [] else Part(bs[0]) + Preimage(bs[1..])
  }

  lemma {:induction false} PreimageMore(bs: seq<Bound>, b: Bound)
    ensures Preimage(bs + [b]) == Preimage(bs) + Part(b)
  {
    if bs == [] {
      assert bs + [b] == [b] && [b][1..] == [] && Part(b) + [] == Part(b) && [] + Part(b) == Part(b);
    } else {
      assert (bs + [b])[1..] == bs[1..] + [b];
      PreimageMore(bs[1..], b);
      assert Part(bs[0]) + (Preimage(bs[1..]) + Part(b)) == Part(bs[0]) + Preimage(bs[1..]) + Part(b);
    }
  }

  lemma Three(a: Bytes, b: Bytes, c: Bytes, x: Bytes)
    ensures a + (b + c) + x == a + (b + (c + x)) && a + b + x == a + (b + x)
  {}

  lemma TailSplit(a: Bound, x: Bytes, b: Bound, y: Bytes)
    requires Accepted(a) && Accepted(b) && a.member.table == b.member.table && Tail(a) + x == Tail(b) + y
    ensures a.commitment == b.commitment && x == y
  {
    var c, d := a.commitment, b.commitment;
    if a.member.table {
      FixedSplit(c.digest, x, d.digest, y);
    } else {
      Three(Frame(c.tag), Frame(c.digest), [], x);
      Three(Frame(d.tag), Frame(d.digest), [], y);
      FrameSplit(c.tag, Frame(c.digest) + x, d.tag, Frame(d.digest) + y);
      FrameSplit(c.digest, x, d.digest, y);
    }
  }

  /** Nothing that the binding is for differs. */
  predicate Same(a: Bound, b: Bound)
  {
    a.member.identity == b.member.identity && a.member.size == b.member.size && a.commitment == b.commitment
  }

  lemma PartSplit(a: Bound, x: Bytes, b: Bound, y: Bytes)
    requires Accepted(a) && Accepted(b) && a.member.table == b.member.table && Part(a) + x == Part(b) + y
    ensures Same(a, b) && x == y
  {
    Three(Frame(a.member.identity), U64(a.member.size), Tail(a), x);
    Three(Frame(b.member.identity), U64(b.member.size), Tail(b), y);
    FrameSplit(a.member.identity, U64(a.member.size) + (Tail(a) + x), b.member.identity, U64(b.member.size) + (Tail(b) + y));
    NumberSplit(a.member.size, Tail(a) + x, b.member.size, Tail(b) + y);
    TailSplit(a, x, b, y);
  }

  /** Among lists of the same kinds of members, the hashed bytes tell every identity, size, tag and digest. */
  lemma {:induction false} PreimageInjective(a: seq<Bound>, b: seq<Bound>)
    requires |a| == |b| && forall i :: 0 <= i < |a| ==> Accepted(a[i]) && Accepted(b[i])
    requires forall i :: 0 <= i < |a| ==> a[i].member.table == b[i].member.table
    requires Preimage(a) == Preimage(b)
    ensures forall i :: 0 <= i < |a| ==> Same(a[i], b[i])
  {
    if a != [] {
      PartSplit(a[0], Preimage(a[1..]), b[0], Preimage(b[1..]));
      PreimageInjective(a[1..], b[1..]);
      forall i | 0 < i < |a| ensures Same(a[i], b[i]) {
        assert Same(a[1..][i - 1], b[1..][i - 1]);
      }
    }
  }

  datatype Outcome = Hashed(preimage: Bytes) | Ready(bound: Bound) | ArtifactChanged | Unsupported

  /** The members, in their order, each with a commitment that its kind may have. */
  ghost predicate Binds(bound: seq<Bound>, members: seq<Member>, commitments: map<Bytes, Commitment>)
  {
    |bound| == |members| && forall i :: 0 <= i < |members| ==> BindsAt(bound, members, commitments, i)
  }

  predicate BindsAt(bound: seq<Bound>, members: seq<Member>, commitments: map<Bytes, Commitment>, i: int)
    requires 0 <= i < |members| && i < |bound|
  {
    HasCommitment(members[i], commitments) && bound[i] == Bound(members[i], commitments[members[i].identity])
  }

  method ContentBindingV2(members: seq<Member>, commitments: map<Bytes, Commitment>) returns (r: Outcome, ghost bound: seq<Bound>)
    requires forall i :: 0 <= i < |members| ==> Small(members[i])
    requires forall k :: k in commitments ==> |commitments[k].digest| == DIGEST
    ensures r.Hashed? <==> forall i :: 0 <= i < |members| ==> HasCommitment(members[i], commitments)
    ensures r.Hashed? ==> Binds(bound, members, commitments) && r.preimage == Preimage(bound)
  {
    var h := [];
    bound := [];
    var i := 0;
    while i < |members|
      invariant 0 <= i <= |members| && h == Preimage(bound) && |bound| == i
      invariant forall k :: 0 <= k < i ==> BindsAt(bound, members, commitments, k)
    {
      r := Lookup(members[i], commitments);
      if !r.Ready? { return; }
      h := AddPart(h, bound, r.bound);
      ghost var was := bound;
      bound := bound + [r.bound];
      forall k | 0 <= k < i ensures BindsAt(bound, members, commitments, k) {
        assert BindsAt(was, members, commitments, k);
      }
      i := i + 1;
    }
    r := Hashed(h);
    forall k | 0 <= k < |members| ensures HasCommitment(members[k], commitments) {
      assert BindsAt(bound, members, commitments, k);
    }
  }

  method AddPart(h0: Bytes, ghost bound: seq<Bound>, b: Bound) returns (h: Bytes)
    requires h0 == Preimage(bound)
    ensures h == Preimage(bound + [b])
  {
    PreimageMore(bound, b);
    h := h0 + Part(b);
  }

  /** A member's commitment, if its tag is one that its kind may have. */
  function Lookup(m: Member, commitments: map<Bytes, Commitment>): (r: Outcome)
    requires Small(m) && forall k :: k in commitments ==> |commitments[k].digest| == DIGEST
    ensures r.Ready? <==> HasCommitment(m, commitments)
    ensures r.Ready? ==> r.bound == Bound(m, commitments[m.identity])
    ensures !r.Hashed?
  {
    if m.identity !in commitments then ArtifactChanged
    else
      var c := commitments[m.identity];
      if m.table && c.tag != Full() then ArtifactChanged
      else if !m.table && !Known(c.tag) then Unsupported
      else Ready(Bound(m, c))
  }

  predicate HasCommitment(m: Member, commitments: map<Bytes, Commitment>)
  {
    m.identity in commitments && Accepted(Bound(m, commitments[m.identity]))
  }

  // ------------------------------------------------------------------ the binding of what was not planned

  function Metadata(m: Member): Bytes
  {
    U64(m.size) + (Frame(Trim(m.etag)) + Frame(m.version))
  }

  function Unread(m: Member): Bytes
  {
    Frame(m.identity) + Metadata(m)
  }

  function UnreadPreimage(ms: seq<Member>): Bytes
  {
    if ms == [] then [] else Unread(ms[0]) + UnreadPreimage(ms[1..])
  }

  lemma {:induction false} UnreadMore(ms: seq<Member>, m: Member)
    ensures UnreadPreimage(ms + [m]) == UnreadPreimage(ms) + Unread(m)
  {
    if ms == [] {
      assert ms + [m] == [m] && [m][1..] == [] && Unread(m) + [] == Unread(m) && [] + Unread(m) == Unread(m);
    } else {
      assert (ms + [m])[1..] == ms[1..] + [m];
      UnreadMore(ms[1..], m);
      assert Unread(ms[0]) + (UnreadPreimage(ms[1..]) + Unread(m)) == Unread(ms[0]) + UnreadPreimage(ms[1..]) + Unread(m);
    }
  }

  /** Quotes around the etag are all that may differ. */
  predicate SameUnread(a: Member, b: Member)
  {
    a.identity == b.identity && a.size == b.size && Trim(a.etag) == Trim(b.etag) && a.version == b.version
  }

  lemma UnreadSplit(a: Member, x: Bytes, b: Member, y: Bytes)
    requires Small(a) && Small(b) && Unread(a) + x == Unread(b) + y
    ensures SameUnread(a, b) && x == y
  {
    var s, t := Frame(Trim(a.etag)) + (Frame(a.version) + x), Frame(Trim(b.etag)) + (Frame(b.version) + y);
    Three(Frame(a.identity), U64(a.size), Frame(Trim(a.etag)) + Frame(a.version), x);
    Three(Frame(b.identity), U64(b.size), Frame(Trim(b.etag)) + Frame(b.version), y);
    Three(Frame(Trim(a.etag)), Frame(a.version), [], x);
    Three(Frame(Trim(b.etag)), Frame(b.version), [], y);
    FrameSplit(a.identity, U64(a.size) + s, b.identity, U64(b.size) + t);
    NumberSplit(a.size, s, b.size, t);
    FrameSplit(Trim(a.etag), Frame(a.version) + x, Trim(b.etag), Frame(b.version) + y);
    FrameSplit(a.version, x, b.version, y);
  }

  /** Lists with the same hashed bytes have the same members, up to the quotes around etags. */
  lemma {:induction false} UnreadInjective(a: seq<Member>, b: seq<Member>)
    requires forall i :: 0 <= i < |a| ==> Small(a[i])
    requires forall i :: 0 <= i < |b| ==> Small(b[i])
    requires UnreadPreimage(a) == UnreadPreimage(b)
    ensures |a| == |b| && forall i :: 0 <= i < |a| ==> SameUnread(a[i], b[i])
  {
    assert a == [] || |UnreadPreimage(a)| >= 8;
    assert b == [] || |UnreadPreimage(b)| >= 8;
    if a != [] && b != [] {
      UnreadSplit(a[0], UnreadPreimage(a[1..]), b[0], UnreadPreimage(b[1..]));
      UnreadInjective(a[1..], b[1..]);
      forall i | 0 < i < |a| ensures SameUnread(a[i], b[i]) {
        assert SameUnread(a[1..][i - 1], b[1..][i - 1]);
      }
    }
  }

  /** The members that are not tables and not planned, in the snapshot's order. */
  function Unplanned(members: seq<Member>, planned: seq<Bytes>): seq<Member>
  {
    if members == [] then []
    else
      var m := members[|members| - 1];
      Unplanned(members[..|members| - 1], planned) + if m.table || m.identity in planned then [] else [m]
  }

  method UnreadBinding(members: seq<Member>, planned: seq<Bytes>) returns (preimage: Bytes)
    ensures preimage == UnreadPreimage(Unplanned(members, planned))
  {
    var known: set<Bytes> := {};
    for i := 0 to |planned|
      invariant forall id :: id in known <==> id in planned[..i]
    {
      assert planned[..i + 1] == planned[..i] + [planned[i]];
      known := known + {planned[i]};
    }
    assert planned[..|planned|] == planned;
    preimage := [];
    for i := 0 to |members|
      invariant preimage == UnreadPreimage(Unplanned(members[..i], planned))
    {
      var m := members[i];
      assert members[..i + 1][..i] == members[..i];
      if !m.table && m.identity !in known {
        UnreadMore(Unplanned(members[..i], planned), m);
        preimage := preimage + Unread(m);
      } else {
        assert Unplanned(members[..i], planned) + [] == Unplanned(members[..i], planned);
      }
    }
    assert members[..|members|] == members;
  }
}
