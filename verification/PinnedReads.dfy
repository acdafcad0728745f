/** Reading a pinned object again: whatever the storage answers, only the pinned bytes are delivered. */
module PinnedReads {
  type Bytes = seq<int>

  const BLOCK := 64 * 1024

  /** A digest determines the bytes it was taken of. */
  datatype Digest = Digest(of: Bytes)

  function Min(a: int, b: int): int
  {
    if a < b then a else b
  }

  /** The bytes of block `i`. */
  function BlockOf(content: Bytes, i: int): Bytes
    requires 0 <= i * BLOCK <= |content|
  {
    content[i * BLOCK..Min((i + 1) * BLOCK, |content|)]
  }

  /** The digests of a content's blocks, in order. */
  ghost predicate Pins(blocks: seq<Digest>, content: Bytes)
  {
    && (|blocks| - 1) * BLOCK < |content| <= |blocks| * BLOCK
    && forall i :: 0 <= i < |blocks| ==> PinsAt(blocks, content, i)
  }

  ghost predicate PinsAt(blocks: seq<Digest>, content: Bytes, i: int)
    requires 0 <= i < |blocks|
  {
    0 <= i * BLOCK <= |content| && blocks[i] == Digest(BlockOf(content, i))
  }

  /** A block that has the digest pinned for its place is the content's. */
  lemma NextPinned(blocks: seq<Digest>, content: Bytes, got: Bytes, b: Bytes, i: int)
    requires Pins(blocks, content) && got <= content && 0 <= i < |blocks| && i * BLOCK == |got| && blocks[i] == Digest(b)
    ensures got + b <= content && |b| <= BLOCK
  {
    assert PinsAt(blocks, content, i);
    var n := Min((i + 1) * BLOCK, |content|);
    assert content[..|got|] + content[|got|..n] == content[..n];
  }

  /** Pinning one more block. */
  lemma PinsMore(blocks: seq<Digest>, got: Bytes, b: Bytes)
    requires Pins(blocks, got) && |blocks| * BLOCK == |got| && 0 < |b| <= BLOCK
    ensures Pins(blocks + [Digest(b)], got + b)
  {
    forall i | 0 <= i <= |blocks| ensures PinsAt(blocks + [Digest(b)], got + b, i) {
      if i < |blocks| {
        assert PinsAt(blocks, got, i);
        assert (i + 1) * BLOCK <= |got|;
        assert BlockOf(got + b, i) == BlockOf(got, i);
      } else {
        assert BlockOf(got + b, i) == b;
      }
    }
  }

  /** What storage answers to one request: some bytes, and perhaps an error. */
  datatype Answer = Answer(bytes: Bytes, eof: bool, failed: bool)

  datatype Outcome = Ok | Eof | Changed | Timeout

  // ------------------------------------------------------------------ random access

  /** The answer is the whole of block `i`. */
  predicate IsWhole(a: Answer, content: Bytes, i: int)
  {
    0 <= i * BLOCK <= |content| && !a.failed && a.bytes == BlockOf(content, i)
  }

  /** Storage answers as it was pinned: request `k` asks for the `k`-th block from that of `off` on. */
  ghost predicate Honest(answers: nat -> Answer, content: Bytes, off: nat)
  {
    forall k: nat :: off / BLOCK + k < (|content| + BLOCK - 1) / BLOCK ==> IsWhole(answers(k), content, off / BLOCK + k)
  }

  /** Fills `dst` with the object's bytes from `off`. The `k`-th request to storage gets `answers(k)`, which may
      be anything; the context may be cancelled before any of them. */
  method ReadAt(dst: array<int>, off: int, size: int, blocks: seq<Digest>, answers: nat -> Answer, cancelled: nat -> bool,
                ghost content: Bytes)
    returns (done: nat, outcome: Outcome)
    requires Pins(blocks, content) && size == |content|
    modifies dst
    ensures done <= dst.Length && dst[done..] == old(dst[done..])
    ensures done > 0 ==> 0 <= off && off + done <= size && dst[..done] == content[off..off + done]
    ensures outcome == Ok ==> done == dst.Length
    ensures outcome == Eof ==> off >= 0 && done < dst.Length && off + done >= size
    ensures outcome == Timeout ==> exists k :: cancelled(k)
    ensures off >= 0 && Honest(answers, content, off) && (forall k :: !cancelled(k)) ==> outcome in {Ok, Eof}
  {
    done, outcome := 0, Changed;
    if off < 0 { return; }
    var k := 0;
    while done < dst.Length && off + done < size
      invariant done <= dst.Length && dst[done..] == old(dst[done..])
      invariant done > 0 ==> off + done <= size && dst[..done] == content[off..off + done]
      invariant done < dst.Length && off + done < size ==> (off + done) / BLOCK == off / BLOCK + k
    {
      if cancelled(k) { return done, Timeout; }
      var ok, take := ReadBlock(dst, done, off + done, size, blocks, answers(k), content);
      if !ok {
        DishonestAt(answers, content, off, off + done, k);
        return done, Changed;
      }
      assert content[off..off + done] + content[off + done..off + done + take] == content[off..off + done + take];
      assert dst[..done + take] == dst[..done] + dst[done..done + take];
      OneBlockOn(off, done, take, dst.Length, size, k);
      done, k := done + take, k + 1;
    }
    outcome := if done < dst.Length then Eof else Ok;
  }

  lemma OneBlockOn(off: nat, done: nat, take: nat, room: nat, size: nat, k: nat)
    requires (off + done) / BLOCK == off / BLOCK + k
    requires done + take == room || off + done + take == Min(((off + done) / BLOCK + 1) * BLOCK, size)
    ensures done + take < room && off + done + take < size ==> (off + done + take) / BLOCK == off / BLOCK + k + 1
  {}

  lemma DishonestAt(answers: nat -> Answer, content: Bytes, off: nat, at: nat, k: nat)
    requires at / BLOCK == off / BLOCK + k && at < |content| && !IsWhole(answers(k), content, at / BLOCK)
    ensures !Honest(answers, content, off)
  {
    assert at / BLOCK < (|content| + BLOCK - 1) / BLOCK;
  }

  /** Bytes from `at` to the end of its block, as far as there is room, if the answer has the pinned digest. */
  method ReadBlock(dst: array<int>, done: nat, at: int, size: int, blocks: seq<Digest>, a: Answer, ghost content: Bytes)
    returns (ok: bool, take: nat)
    requires Pins(blocks, content) && size == |content| && done < dst.Length && 0 <= at < size
    modifies dst
    ensures dst[..done] == old(dst[..done]) && done + take <= dst.Length && dst[done + take..] == old(dst[done + take..])
    ensures ok ==> take > 0 && at + take <= size && dst[done..done + take] == content[at..at + take]
    ensures ok ==> done + take == dst.Length || at + take == Min((at / BLOCK + 1) * BLOCK, size)
    ensures !ok ==> take == 0 && !IsWhole(a, content, at / BLOCK)
  {
    var i := at / BLOCK;
    var start := i * BLOCK;
    var n := Min(BLOCK, size - start);
    BlockHolds(at, size, i, |blocks|);
    assert PinsAt(blocks, content, i);
    if |a.bytes| != n || a.failed || Digest(a.bytes) != blocks[i] { return false, 0; }
    IsBlock(blocks, content, a.bytes, i, at);
    take := Copy(dst, done, a.bytes[at - start..]);
    ok := true;
    assert content[at..start + n][..take] == content[at..at + take];
  }

  /** The block a byte lies in. */
  lemma BlockHolds(at: nat, size: nat, i: nat, count: nat)
    requires at < size <= count * BLOCK && i == at / BLOCK
    ensures i < count && i * BLOCK <= at < i * BLOCK + Min(BLOCK, size - i * BLOCK)
    ensures (i + 1) * BLOCK == i * BLOCK + BLOCK
  {}

  lemma IsBlock(blocks: seq<Digest>, content: Bytes, b: Bytes, i: int, at: int)
    requires Pins(blocks, content) && 0 <= i < |blocks| && blocks[i] == Digest(b)
    requires i * BLOCK <= at <= i * BLOCK + |b|
    ensures i * BLOCK + |b| <= |content| && b[at - i * BLOCK..] == content[at..i * BLOCK + |b|]
  {
    assert PinsAt(blocks, content, i);
  }

  /** As many of the bytes as there is room for, from place `done`. */
  method Copy(dst: array<int>, done: nat, b: Bytes) returns (take: nat)
    requires done <= dst.Length
    modifies dst
    ensures take == Min(dst.Length - done, |b|)
    ensures dst[..done] == old(dst[..done]) && dst[done..done + take] == b[..take] && dst[done + take..] == old(dst[done + take..])
  {
    take := Min(dst.Length - done, |b|);
    forall j | 0 <= j < take { dst[done + j] := b[j]; }
  }

  // ------------------------------------------------------------------ streaming

  /** The bytes taken are the pinned ones, those of the first `index` blocks while more may come. */
  ghost predicate Matched(blocks: seq<Digest>, content: Bytes, got: Bytes, index: nat, end: bool)
  {
    Pins(blocks, content) && got <= content && (!end ==> index * BLOCK == |got|)
  }

  /** The bytes taken have been pinned, in whole blocks while more may come. */
  ghost predicate Measured(blocks: seq<Digest>, got: Bytes, end: bool)
  {
    Pins(blocks, got) && (!end ==> |blocks| * BLOCK == |got|)
  }

  /** One more block with the digest that is pinned for it. */
  lemma MatchedMore(blocks: seq<Digest>, content: Bytes, got: Bytes, index: nat, b: Bytes, end: bool)
    requires Matched(blocks, content, got, index, false) && index < |blocks| && blocks[index] == Digest(b)
    requires end || |b| == BLOCK
    ensures Matched(blocks, content, got + b, index + 1, end)
  {
    NextPinned(blocks, content, got, b, index);
  }

  lemma MeasuredMore(blocks: seq<Digest>, got: Bytes, b: Bytes, end: bool)
    requires Measured(blocks, got, false) && 0 < |b| <= BLOCK && (end || |b| == BLOCK)
    ensures Measured(blocks + [Digest(b)], got + b, end)
  {
    PinsMore(blocks, got, b);
  }

  /** How many bytes were taken, of how many that storage has answered: none is left out, or the last is never
      reached. */
  predicate Told(got: int, seen: int, size: int, end: bool, lost: bool)
  {
    && got <= seen
    && if lost then got < size && (end || got < seen) else got <= size && (seen == got || got == size) && (end ==> got == size)
  }

  /** Reads an object block by block: the first time to pin it, later to deliver it only as it was pinned. */
  class HashBlocks {
    const size: int
    const verify: bool
    var blocks: seq<Digest>
    var pending: Bytes
    var end: bool
    var seen: int
    var index: int

    /** The pinned bytes, those handed out, whether an earlier call has failed, and whether one refused what
        storage had answered while bytes were still to come. */
    ghost const content: Bytes
    ghost var delivered: Bytes
    ghost var broken: bool
    ghost var lost: bool

    ghost predicate Valid()
      reads this
    {
      var got := delivered + pending;
      && index >= 0 && (!broken ==> seen == |got| <= size && (end ==> seen == size)) && (lost ==> broken)
      && Told(|got|, seen, size, end, lost)
      && (if verify then size == |content| && delivered <= content && Matched(blocks, content, got, index, end)
          else !end || !broken ==> Measured(blocks, got, end))
    }

    constructor (size: nat, verify: bool, blocks: seq<Digest>, ghost content: Bytes)
      requires verify ==> Pins(blocks, content) && size == |content|
      ensures Valid() && !broken && !lost && delivered == [] && this.size == size && this.verify == verify && this.content == content
      ensures pending == [] && !end && seen == 0
    {
      this.size, this.verify, this.content := size, verify, content;
      this.blocks := if verify then blocks else [];
      pending, end, seen, index, delivered, broken, lost := [], false, 0, 0, [], false, false;
    }

    /** What makes an answer unacceptable. */
    predicate Bad(a: Answer)
      reads this
    {
      var n := seen + |a.bytes|;
      || a.failed || n > size || (a.bytes == [] && n != size)
      || (a.bytes != [] && verify && (index < 0 || index >= |blocks| || Digest(a.bytes) != blocks[index]))
      || (a.eof && n != size)
    }

    /** One block from storage: it must be within the size, and in verification it must be the pinned one. */
    method Fetch(a: Answer) returns (outcome: Outcome)
      requires Valid() && pending == [] && !end
      requires |a.bytes| <= BLOCK && (|a.bytes| == BLOCK <==> !a.eof && !a.failed)
      modifies this
      ensures Valid() && delivered == old(delivered) && outcome in {Ok, Eof, Changed}
      ensures broken == (old(broken) || outcome == Changed) && (outcome != Ok ==> pending == [])
      ensures lost == (old(lost) || (outcome == Changed && !a.failed && |delivered| < size))
      ensures outcome == if old(Bad(a)) then Changed else if a.bytes == [] then Eof else Ok
      ensures end == (if a.failed then old(end) else a.eof) && (outcome == Ok ==> pending == a.bytes)
    {
      assert delivered + [] == delivered;
      if a.failed { broken := true; return Changed; }
      var n := |a.bytes|;
      end := a.eof;
      seen := seen + n;
      ghost var losing := lost || |delivered| < size;
      if seen > size { broken, lost := true, losing; return Changed; }
      if n == 0 {
        if seen != size { broken, lost := true, losing; return Changed; }
        return Eof;
      }
      if verify {
        if index >= |blocks| || Digest(a.bytes) != blocks[index] { broken, lost := true, losing; return Changed; }
        MatchedMore(blocks, content, delivered, index, a.bytes, end);
        index := index + 1;
      } else {
        MeasuredMore(blocks, delivered, a.bytes, end);
        blocks := blocks + [Digest(a.bytes)];
      }
      if end && seen != size { broken, lost := true, losing; return Changed; }
      pending := a.bytes;
      outcome := Ok;
    }

    /** At the end, all was delivered unless something was lost. */
    lemma AtEnd()
      requires Valid() && pending == [] && end
      ensures |delivered| == size <==> !lost
      ensures verify ==> (delivered == content <==> !lost)
      ensures !broken ==> |delivered| == size && (if verify then delivered == content else Pins(blocks, delivered))
    {
      assert delivered + pending == delivered;
    }

    /** As many pending bytes as there is room for. */
    method HandOut(dst: array<int>) returns (n: nat)
      requires Valid()
      modifies `delivered, `pending, dst
      ensures Valid() && n == Min(dst.Length, |old(pending)|) && delivered == old(delivered) + dst[..n]
    {
      n := Min(dst.Length, |pending|);
      forall j | 0 <= j < n { dst[j] := pending[j]; }
      assert dst[..n] == pending[..n];
      assert delivered + pending[..n] + pending[n..] == delivered + pending;
      delivered := delivered + pending[..n];
      pending := pending[n..];
    }

    /** The next bytes of the object into `dst`; storage is asked, and may answer anything, only when no block
        is pending. The end is told of the whole object exactly when no answer that came without a failure was
        refused before all of it was delivered. */
    method Read(dst: array<int>, a: Answer, cancelled: bool) returns (n: nat, outcome: Outcome)
      requires Valid() && |a.bytes| <= BLOCK && (|a.bytes| == BLOCK <==> !a.eof && !a.failed)
      modifies this, dst
      ensures Valid() && n <= dst.Length && delivered == old(delivered) + dst[..n]
      ensures verify ==> delivered <= content
      ensures outcome != Ok ==> n == 0
      ensures outcome == if cancelled then Timeout else if old(pending) != [] then Ok else if old(end) then Eof
                         else if old(Bad(a)) then Changed else if a.bytes == [] then Eof else Ok
      ensures outcome == Ok ==> n == Min(dst.Length, |if old(pending) == [] then a.bytes else old(pending)|)
      ensures outcome == Changed ==> pending == [] && end == (a.eof && !a.failed)
      ensures broken == (old(broken) || outcome == Changed)
      ensures lost == (old(lost) || (outcome == Changed && !a.failed && |old(delivered)| < size))
      ensures outcome == Eof ==> (|delivered| == size <==> !lost)
      ensures verify && outcome == Eof ==> (delivered == content <==> !lost)
      ensures outcome == Eof && !broken ==> |delivered| == size && (if verify then delivered == content else Pins(blocks, delivered))
    {
      n := 0;
      assert dst[..0] == [] && delivered + [] == delivered;
      if cancelled { return 0, Timeout; }
      if pending == [] {
        if end { AtEnd(); return 0, Eof; }
        outcome := Fetch(a);
        if outcome == Eof { AtEnd(); }
        if outcome != Ok { return; }
      }
      n := HandOut(dst);
      outcome := Ok;
    }
  }

  /** After an answer was refused, the end may be told early: storage cuts a five-byte object short, the first
      read reports the change, and the next one reports the end with nothing delivered. */
  method EndAfterChange(content: Bytes, blocks: seq<Digest>) returns (first: Outcome, second: Outcome, delivered: nat)
    requires |content| == 5 && Pins(blocks, content)
    ensures first == Changed && second == Eof && delivered == 0
  {
    var r := new HashBlocks(5, true, blocks, content);
    var dst := new int[5];
    var n, m;
    n, first := r.Read(dst, Answer(content[..3], true, false), false);
    m, second := r.Read(dst, Answer([], true, false), false);
    delivered := n + m;
  }
}
