/** Hashing a whole ZIP file from extents that come in any order: extents ahead of their turn wait in a
    linked list, and the memory they take is charged to a shared budget. */
module ZipHash {
  import opened ZipOrder

  /** An extent held back. */
  class Block {
    const off: int
    const capacity: int
    var data: Bytes
    var next: Block?

    constructor (off: int, capacity: int, next: Block?)
      ensures this.off == off && this.capacity == capacity && data == [] && this.next == next
    {
      this.off, this.capacity, this.data, this.next := off, capacity, [], next;
    }
  }

  /** The run's memory budget, which other readers charge at the same time. */
  class Memory {
    const limit: int
    var used: int
    var failed: bool

    constructor (limit: int)
      ensures this.limit == limit && used == 0 && !failed
    {
      this.limit, used, failed := limit, 0, false;
    }
  }

  const HEADROOM := 8 * 1024 * 1024

  function Max(a: int, b: int): int
  {
    if a < b then b else a
  }

  class FullHash {
    const limit: int
    const memory: Memory
    var fed: Bytes
    var next: int
    var off: int
    var held: int
    var pending: Block?
    var current: Block?

    /** The file, where its extents begin and the last ends, and how far they have come. */
    ghost const file: Bytes
    ghost const tiles: seq<int>
    ghost var p: Progress

    /** The nodes of the list, what they hold, the place of the current one, and what others have charged. */
    ghost var chain: seq<Block>
    ghost var blocks: seq<Held>
    ghost var at: int
    ghost var elsewhere: int

    ghost predicate List()
      reads `pending, `chain, `blocks, chain
    {
      && |blocks| == |chain|
      && pending == NodeAt(0)
      && (forall i :: 0 <= i < |chain| ==> Tied(i))
      && Distinct(chain)
    }

    ghost predicate Tied(i: int)
      requires 0 <= i < |chain| == |blocks|
      reads `chain, `blocks, chain
    {
      chain[i].next == NodeAt(i + 1) && blocks[i] == Held(chain[i].off, chain[i].data, chain[i].capacity)
    }

    ghost function NodeAt(i: int): Block?
      requires 0 <= i
      reads `chain
    {
      if i < |chain| then chain[i] else null
    }

    ghost predicate Charged()
      reads `held, `elsewhere, `blocks, memory
    {
      held == Charges(blocks) && memory.used == elsewhere + held
    }

    ghost predicate Valid()
      reads this, chain, memory
    {
      && List() && Charged() && Sound(file, tiles, p, blocks, fed, next, off)
      && (p.cur != -1 && p.cur != p.front ==>
            0 <= at < |chain| && current == chain[at] && p.held[at] == p.cur)
    }

    constructor (limit: int, memory: Memory, ghost file: Bytes, ghost tiles: seq<int>, prefix: Bytes)
      requires Tiling(tiles, |file|) && prefix == file[..tiles[0]]
      ensures Valid() && this.file == file && this.tiles == tiles && this.memory == memory && this.limit == limit
      ensures p == Progress(0, [], -1, 0) && chain == [] && elsewhere == memory.used
    {
      this.limit, this.memory, this.file, this.tiles := limit, memory, file, tiles;
      fed, next, off, held, pending, current := prefix, |prefix|, 0, 0, null, null;
      p, chain, blocks, at, elsewhere := Progress(0, [], -1, 0), [], [], -1, memory.used;
    }

    /** `n` more bytes are within the limit, and leave the shared headroom. */
    predicate Room(n: int)
      reads `held, memory
    {
      n <= limit - held && n <= memory.limit - Max(HEADROOM, memory.limit / 8) - memory.used && !memory.failed
    }

    /** Charges `n` bytes, unless that leaves too little room for others; `others` is what they charge or
        give back between one look at the counter and the attempt to change it. */
    method Reserve(n: int, others: seq<int>) returns (ok: bool)
      requires Charged()
      modifies memory`used, `elsewhere
      ensures memory.used == elsewhere + held + (if ok then n else 0)
      ensures others == [] ==> elsewhere == old(elsewhere)
      ensures ok ==> n <= limit - held && memory.used <= memory.limit - Max(HEADROOM, memory.limit / 8) && !memory.failed
      ensures others == [] ==> (ok <==> old(Room(n)))
    {
      if n > limit - held { return false; }
      var headroom := Max(HEADROOM, memory.limit / 8);
      var i := 0;
      while true
        invariant 0 <= i <= |others| && memory.used == elsewhere + held
        invariant others == [] ==> elsewhere == old(elsewhere) && memory.used == old(memory.used)
        decreases |others| - i
      {
        var v := memory.used;
        if n > memory.limit - headroom - v || memory.failed { return false; }
        if i < |others| {
          memory.used := memory.used + others[i];
          elsewhere := elsewhere + others[i];
        }
        if memory.used == v {
          memory.used := v + n;
          return true;
        }
        i := i + 1;
      }
    }

    /** The link where an extent at `o` belongs: after every node before it. */
    method Place(o: int) returns (prev: Block?, rest: Block?, ghost k: int)
      requires List()
      ensures 0 <= k <= |chain| && prev == (if k > 0 then chain[k - 1] else null) && rest == NodeAt(k)
      ensures (k > 0 ==> blocks[k - 1].off < o) && (k < |chain| ==> blocks[k].off >= o)
    {
      prev, rest, k := null, pending, 0;
      while rest != null && rest.off < o
        invariant 0 <= k <= |chain| && prev == (if k > 0 then chain[k - 1] else null) && rest == NodeAt(k)
        invariant k > 0 ==> blocks[k - 1].off < o
        decreases |chain| - k
      {
        assert Tied(k);
        prev, rest, k := rest, rest.next, k + 1;
      }
      assert k < |chain| ==> Tied(k);
    }

    /** Puts a new node into the list. */
    method Link(o: int, capacity: int)
      requires List()
      modifies `pending, `current, `chain, `blocks, `at, chain`next
      ensures List() && 0 <= at <= |old(chain)| && fresh(current) && chain == Inserted(old(chain), at, current)
      ensures Linked(old(blocks), blocks, o, capacity, at) && forall b :: b in chain ==> b == current || b in old(chain)
    {
      var prev, rest;
      ghost var k;
      prev, rest, k := Place(o);
      var b := new Block(o, capacity, rest);
      Splice(b, prev, k);
      at, current := k, b;
      assert forall i :: 0 <= i < |chain| && i != at ==> chain[i] in old(chain);
    }

    method Splice(b: Block, prev: Block?, ghost k: int)
      requires List() && b !in chain && 0 <= k <= |chain| && prev == (if k > 0 then chain[k - 1] else null)
      requires b.next == NodeAt(k)
      modifies `pending, `chain, `blocks, chain`next
      ensures List() && chain == Inserted(old(chain), k, b)
      ensures blocks == Inserted(old(blocks), k, Held(b.off, b.data, b.capacity))
    {
      ghost var was := chain;
      if prev == null { pending := b; } else { prev.next := b; }
      DistinctInsert(chain, k, b);
      chain := Inserted(chain, k, b);
      blocks := Inserted(blocks, k, Held(b.off, b.data, b.capacity));
      forall i | 0 <= i < |chain| ensures Tied(i) {
        if i == k - 1 { assert old(Tied(i)); }
        if i < k - 1 { assert old(Tied(i)) && Differ(was, i, k - 1); }
        if i > k { assert old(Tied(i - 1)) && (k > 0 ==> Differ(was, i - 1, k - 1)); }
      }
    }

    /** Takes the first node off the list. */
    method Pop() returns (v: Held)
      requires List() && chain != []
      modifies `pending, `chain, `blocks, chain[0]
      ensures List() && chain == old(chain)[1..] && blocks == old(blocks)[1..] && v == old(blocks)[0]
    {
      var b := pending;
      assert Tied(0);
      v := Held(b.off, b.data, b.capacity);
      pending := b.next;
      b.data, b.next := [], null;
      ghost var was := chain;
      chain, blocks := chain[1..], blocks[1..];
      forall i | 0 <= i < |chain| ensures Tied(i) && chain[i] != was[0] {
        assert old(Tied(i + 1)) && Differ(was, i + 1, 0);
      }
      forall i, j | 0 <= i < |chain| && 0 <= j < |chain| ensures Differ(chain, i, j) {
        assert Differ(was, i + 1, j + 1);
      }
    }

    /** More bytes for the node that is being filled. */
    method Fill(node: Block, b: Bytes)
      requires List() && 0 <= at < |chain| && node == chain[at]
      modifies node`data, `blocks
      ensures List()
      ensures blocks == old(blocks)[at := old(blocks[at]).(data := old(blocks[at].data) + b)]
    {
      assert Tied(at);
      node.data := node.data + b;
      blocks := blocks[at := blocks[at].(data := node.data)];
      forall i | 0 <= i < |chain| ensures Tied(i) && (i != at ==> chain[i] != chain[at]) {
        assert old(Tied(i)) && Differ(chain, i, at);
      }
    }

    /** Extent `t` begins: it is hashed as it comes if its turn has come, else memory is set aside for it. */
    method Start(ghost t: int, o: int, size: int, others: seq<int>) returns (ok: bool)
      requires Valid() && p.cur == -1 && 0 <= t < |tiles| - 1 && !IsDone(p, t)
      requires o == tiles[t] && size == tiles[t + 1] - tiles[t]
      modifies this, chain, memory`used
      ensures Valid() && fed == old(fed) && next == old(next)
      ensures SameDone(old(p), p) && (others == [] ==> elsewhere == old(elsewhere))
      ensures p.cur == (if ok then t else -1) && (ok ==> p.w == 0 && off == o) && (o == old(next) ==> ok)
      ensures others == [] && old(Room(ChargeFor(size))) ==> ok
      ensures held <= old(held) + ChargeFor(size)
      ensures fresh(set b | b in chain && b !in old(chain))
    {
      off, current := o, null;
      if o == next {
        BeginsDirect(file, tiles, p, blocks, fed, next, old(off), t);
        p := p.(cur := t, w := 0);
        return true;
      }
      var capacity := Rounded(size);
      RoundedUp(size);
      ok := Reserve(capacity + BOOKKEEPING, others);
      if ok {
        Hold(t, o, capacity);
      }
    }

    method Hold(ghost t: int, o: int, capacity: int)
      requires List() && held == Charges(blocks) && memory.used == elsewhere + held + capacity + BOOKKEEPING
      requires Sound(file, tiles, p, blocks, fed, next, off) && off == o && o != next
      requires p.cur == -1 && 0 <= t < |tiles| - 1 && !IsDone(p, t) && o == tiles[t] && tiles[t + 1] - tiles[t] <= capacity
      modifies `held, `pending, `current, `chain, `blocks, `at, `p, chain`next
      ensures Valid() && p.cur == t && p.w == 0 && SameDone(old(p), p) && held == old(held) + capacity + BOOKKEEPING
      ensures fresh(current) && forall b :: b in chain ==> b == current || b in old(chain)
    {
      ghost var was := blocks;
      held := held + capacity + BOOKKEEPING;
      Link(o, capacity);
      HoldsAfter(file, tiles, p, was, fed, next, off, t, at, Held(o, [], capacity));
      p := Progress(p.front, Inserted(p.held, at, t), t, 0);
    }

    /** More bytes of the extent at the front go to the hash. */
    method Feed(b: Bytes)
      requires Valid() && p.cur == p.front && |b| > 0 && Next(b)
      modifies `fed, `next, `p
      ensures Consistent(file, tiles, p, blocks, fed, next, off + |b|)
      ensures p.cur != -1 ==> p.cur == p.front && Sound(file, tiles, p, blocks, fed, next, off + |b|)
      ensures Advanced(old(p), p, tiles, |b|)
    {
      if p.w + |b| == tiles[p.cur + 1] - tiles[p.cur] {
        EndsDirect(file, tiles, p, blocks, fed, next, off, b);
        p := Progress(p.front + 1, p.held, -1, 0);
      } else {
        GoesOnDirect(file, tiles, p, blocks, fed, next, off, b);
        p := p.(w := p.w + |b|);
      }
      fed, next := fed + b, next + |b|;
    }

    /** Bytes of the current extent that have not come yet. */
    ghost predicate Next(b: Bytes)
      requires p.cur != -1 && Valid()
      reads this, chain, memory
    {
      p.w + |b| <= tiles[p.cur + 1] - tiles[p.cur] && b == file[off..off + |b|]
    }

    method DrainOne(ghost at': int)
      requires List() && Charged() && Consistent(file, tiles, p, blocks, fed, next, at')
      requires p.cur == -1 && pending != null && pending.off == next
      modifies `fed, `next, `held, `pending, `chain, `blocks, `p, chain, memory`used
      ensures List() && Charged() && Consistent(file, tiles, p, blocks, fed, next, at')
      ensures p.cur == -1 && SameDone(old(p), p) && old(chain) != [] && chain == old(chain)[1..]
      ensures held <= old(held)
    {
      assert Tied(0);
      Drains(file, tiles, p, blocks, fed, next, at');
      p := Progress(p.front + 1, p.held[1..], -1, 0);
      var v := Pop();
      fed, next := fed + v.data, next + |v.data|;
      held := held - Charge(v);
      memory.used := memory.used - Charge(v);
    }

    /** Hashes the blocks whose turn has come and gives their memory back. */
    method Drain(ghost at': int)
      requires List() && Charged() && Consistent(file, tiles, p, blocks, fed, next, at')
      requires p.cur != -1 ==> p.cur == p.front && Sound(file, tiles, p, blocks, fed, next, at')
      modifies `fed, `next, `held, `pending, `chain, `blocks, `p, chain, memory`used
      ensures List() && Charged() && Sound(file, tiles, p, blocks, fed, next, at')
      ensures p.cur == old(p.cur) && SameDone(old(p), p) && (p.cur != -1 ==> p == old(p))
      ensures held <= old(held)
      ensures forall n :: n in chain ==> n in old(chain)
    {
      if p.cur != -1 { NoneDue(file, tiles, p, blocks, fed, next, at'); }
      while pending != null && pending.off == next
        invariant List() && Charged() && Consistent(file, tiles, p, blocks, fed, next, at')
        invariant p.cur == old(p.cur) && SameDone(old(p), p) && held <= old(held)
        invariant p.cur != -1 ==> p == old(p) && p.front !in p.held && (blocks != [] ==> blocks[0].off != next)
        invariant chain == old(chain)[|old(chain)| - |chain|..] && |chain| <= |old(chain)|
        decreases |chain|
      {
        assert Tied(0);
        DrainOne(at');
      }
      assert chain != [] ==> Tied(0);
      if p.cur == -1 { Drained(file, tiles, p, blocks, fed, next, at'); }
    }

    /** More bytes of an extent that is held back. */
    method Keep(node: Block, b: Bytes)
      requires Valid() && p.cur != -1 && p.cur != p.front && |b| > 0 && Next(b) && node == current
      modifies `blocks, `p, `off, node`data
      ensures Valid() && off == old(off) + |b| && Advanced(old(p), p, tiles, |b|)
    {
      GoesOnHeld(file, tiles, p, blocks, fed, next, off, b, at);
      ChargesUpdate(blocks, at, blocks[at].(data := blocks[at].data + b));
      Fill(node, b);
      p := if p.w + |b| == tiles[p.cur + 1] - tiles[p.cur] then p.(cur := -1, w := 0) else p.(w := p.w + |b|);
      off := off + |b|;
    }

    /** More bytes of the current extent: to the hash if its turn has come, else into its block. */
    method Write(b: Bytes) returns (ok: bool)
      requires Valid() && p.cur != -1 && |b| > 0 && Next(b)
      modifies this, chain, memory`used
      ensures ok && Valid() && Advanced(old(p), p, tiles, |b|) && elsewhere == old(elsewhere)
      ensures off == old(off) + |b| && (forall n :: n in chain ==> n in old(chain))
      ensures held <= old(held)
    {
      if off == next {
        Feed(b);
        Drain(off + |b|);
        off, ok := off + |b|, true;
      } else {
        GoesOnHeld(file, tiles, p, blocks, fed, next, off, b, at);
        assert Tied(at);
        ok := current != null && |b| <= current.capacity - |current.data|;
        if ok { Keep(current, b); }
      }
    }

    /** Gives everything back; the attempt to hash the whole file is over. */
    method Release()
      requires Charged()
      modifies `pending, `current, `held, `chain, `blocks, memory`used
      ensures List() && Charged() && held == 0 && memory.used == elsewhere
    {
      pending, current, chain, blocks := null, null, [], [];
      memory.used := memory.used - held;
      held := 0;
    }

    /** One extent, from beginning to end, in whatever pieces the stream gives it. */
    method Extent(ghost t: int, o: int, bound: int, file: Bytes, pieces: int -> int, others: seq<int>) returns (ok: bool)
      requires Valid() && p.cur == -1 && 0 <= t < |tiles| - 1 && !IsDone(p, t)
      requires o == tiles[t] && bound == tiles[t + 1] && file == this.file
      modifies this, chain, memory`used
      ensures Valid() && p.cur == -1 && fresh(set b | b in chain && b !in old(chain))
      ensures if ok then DoneAlso(old(p), p, t) else SameDone(old(p), p)
      ensures (o == old(next) ==> ok) && (others == [] ==> elsewhere == old(elsewhere))
      ensures others == [] && old(Room(ChargeFor(bound - o))) ==> ok
      ensures held <= old(held) + ChargeFor(bound - o)
    {
      ok := Start(t, o, bound - o, others);
      if !ok { return; }
      var w, j := 0, 0;
      ghost var begun := p;
      while w < bound - o
        invariant Valid() && 0 <= w <= bound - o && off == o + w && held <= old(held) + ChargeFor(bound - o)
        invariant others == [] ==> elsewhere == old(elsewhere)
        invariant fresh(set b | b in chain && b !in old(chain))
        invariant if w < bound - o then p.cur == t && p.w == w && SameDone(begun, p) else p.cur == -1 && DoneAlso(begun, p, t)
        decreases bound - o - w
      {
        var n := if 0 < pieces(j) <= bound - o - w then pieces(j) else bound - o - w;
        var fits := Write(file[off..off + n]);
        w, j := w + n, j + 1;
      }
    }
  }

  /** The finished extents are those of the first `i` entries, and held is no more than they take. */
  ghost predicate SoFar(full: FullHash, order: seq<int>, offs: seq<int>, bounds: seq<int>, i: int)
    requires 0 <= i <= |order| == |offs| == |bounds|
    reads full, full.chain, full.memory
  {
    && full.Valid() && full.p.cur == -1 && full.held <= AllCharges(offs[..i], bounds[..i])
    && forall t :: IsDone(full.p, t) <==> t in order[..i]
  }

  /** Feeds the extent of entry `i`. */
  method FeedEntry(full: FullHash, file: Bytes, ghost order: seq<int>, offs: seq<int>, bounds: seq<int>, i: nat,
                   pieces: int -> int, others: seq<int>) returns (ok: bool)
    requires file == full.file && Covers(order, full.tiles, offs, bounds) && i < |offs| && SoFar(full, order, offs, bounds, i)
    modifies full, full.chain, full.memory`used
    ensures full.Valid() && full.p.cur == -1 && fresh(set b | b in full.chain && b !in old(full.chain))
    ensures ok ==> SoFar(full, order, offs, bounds, i + 1)
    ensures (forall k :: 0 <= k < |order| ==> order[k] == k) ==> ok
    ensures others == [] ==> full.elsewhere == old(full.elsewhere)
    ensures others == [] && old(full.Room(AllCharges(offs, bounds) - full.held)) ==>
      ok && full.Room(AllCharges(offs, bounds) - full.held)
  {
    assert TileAt(order, full.tiles, offs, bounds, i);
    SpansForward(order, full.tiles, offs, bounds);
    ChargesSoFar(offs, bounds, i);
    if forall k :: 0 <= k < |order| ==> order[k] == k {
      InTurn(file, full.tiles, full.p, full.blocks, full.fed, full.next, full.off, order, i);
    }
    ok := full.Extent(order[i], offs[i], bounds[i], file, pieces, others);
    assert order[..i + 1] == order[..i] + [order[i]];
  }

  /** Feeds every extent, then the central directory and what follows it. Whatever happens, all memory is
      given back; and when nothing fails, exactly the file has been hashed. */
  method HashAll(full: FullHash, file: Bytes, ghost order: seq<int>, offs: seq<int>, bounds: seq<int>, end: int,
                 pieces: int -> int -> int, others: int -> seq<int>) returns (ok: bool)
    requires full.Valid() && full.p == Progress(0, [], -1, 0) && file == full.file
    requires Covers(order, full.tiles, offs, bounds) && end == full.tiles[|full.tiles| - 1]
    modifies full, full.chain, full.memory`used
    ensures ok ==> full.fed == file
    ensures (forall i :: 0 <= i < |order| ==> order[i] == i) ==> ok
    ensures (forall i :: others(i) == []) && old(full.Room(AllCharges(offs, bounds))) ==> ok
    ensures full.held == 0 && full.memory.used == full.elsewhere
    ensures (forall i :: others(i) == []) ==> full.elsewhere == old(full.elsewhere)
  {
    var i := 0;
    ghost var enough := (forall k :: others(k) == []) && full.Room(AllCharges(offs, bounds));
    while i < |offs|
      invariant 0 <= i <= |offs| && SoFar(full, order, offs, bounds, i)
      invariant enough ==> full.Room(AllCharges(offs, bounds) - full.held)
      invariant (forall k :: others(k) == []) ==> full.elsewhere == old(full.elsewhere)
      invariant fresh(set b | b in full.chain && b !in old(full.chain))
    {
      ok := FeedEntry(full, file, order, offs, bounds, i, pieces(i), others(i));
      if !ok {
        full.Release();
        return;
      }
      i := i + 1;
    }
    assert order[..i] == order;
    AllDone(file, full.tiles, full.p, full.blocks, full.fed, full.next, full.off);
    ok := full.next == end;
    if ok {
      assert file == file[..end] + file[end..];
      full.fed := full.fed + file[end..];
    }
    full.Release();
  }

  /** The memory set aside for an extent that comes ahead of its turn. */
  function ChargeFor(size: int): int
  {
    Rounded(size) + BOOKKEEPING
  }

  /** The same for all of them. */
  function AllCharges(offs: seq<int>, bounds: seq<int>): int
    requires |offs| == |bounds|
  {
    if offs == [] then 0
    else var n := |offs| - 1; AllCharges(offs[..n], bounds[..n]) + ChargeFor(bounds[n] - offs[n])
  }

  lemma SpansForward(order: seq<int>, tiles: seq<int>, offs: seq<int>, bounds: seq<int>)
    requires Covers(order, tiles, offs, bounds) && forall s, t :: 0 <= s < t < |tiles| ==> tiles[s] < tiles[t]
    ensures forall k :: 0 <= k < |offs| ==> offs[k] <= bounds[k]
  {
    forall k | 0 <= k < |offs| ensures offs[k] <= bounds[k] { assert TileAt(order, tiles, offs, bounds, k); }
  }

  /** What the first extents take, and one more, is within what all take. */
  lemma {:induction false} ChargesSoFar(offs: seq<int>, bounds: seq<int>, i: int)
    requires |offs| == |bounds| && 0 <= i < |offs| && forall k :: 0 <= k < |offs| ==> offs[k] <= bounds[k]
    ensures AllCharges(offs[..i + 1], bounds[..i + 1]) == AllCharges(offs[..i], bounds[..i]) + ChargeFor(bounds[i] - offs[i])
    ensures AllCharges(offs[..i + 1], bounds[..i + 1]) <= AllCharges(offs, bounds)
  {
    assert offs[..i + 1][..i] == offs[..i] && bounds[..i + 1][..i] == bounds[..i];
    var n := |offs| - 1;
    if i < n {
      ChargesSoFar(offs[..n], bounds[..n], i);
      assert offs[..n][..i + 1] == offs[..i + 1] && bounds[..n][..i + 1] == bounds[..i + 1];
      assert offs[..n][..i] == offs[..i] && bounds[..n][..i] == bounds[..i];
      RoundedUp(bounds[n] - offs[n]);
    } else {
      assert offs[..i + 1] == offs && bounds[..i + 1] == bounds;
    }
  }

  /** `n` more bytes of the current extent have come, and if they were the last it is finished. */
  ghost predicate Advanced(p: Progress, q: Progress, tiles: seq<int>, n: int)
    requires 0 <= p.cur < |tiles| - 1
  {
    if p.w + n == tiles[p.cur + 1] - tiles[p.cur] then q.cur == -1 && DoneAlso(p, q, p.cur)
    else q.cur == p.cur && q.w == p.w + n && SameDone(p, q)
  }

  predicate Distinct(chain: seq<Block>)
  {
    forall i, j :: 0 <= i < |chain| && 0 <= j < |chain| ==> Differ(chain, i, j)
  }

  predicate Differ(chain: seq<Block>, i: int, j: int)
    requires 0 <= i < |chain| && 0 <= j < |chain|
  {
    chain[i] == chain[j] ==> i == j
  }

  lemma DistinctInsert(chain: seq<Block>, k: int, b: Block)
    requires Distinct(chain) && b !in chain && 0 <= k <= |chain|
    ensures Distinct(Inserted(chain, k, b))
  {
    var after := Inserted(chain, k, b);
    forall i, j | 0 <= i < |after| && 0 <= j < |after| ensures Differ(after, i, j) {
      if i != k && j != k { assert Differ(chain, if i < k then i else i - 1, if j < k then j else j - 1); }
    }
  }

  /** `after` is `was` with an empty block in its place. */
  ghost predicate Linked(was: seq<Held>, after: seq<Held>, o: int, capacity: int, k: int)
  {
    && 0 <= k <= |was| && after == Inserted(was, k, Held(o, [], capacity))
    && (k > 0 ==> was[k - 1].off < o) && (k < |was| ==> was[k].off >= o)
  }
}
