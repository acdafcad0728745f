/** Putting the extents of a ZIP file back into physical order: what has been hashed and what is held
    back, as values. */
module ZipOrder {
  type Bytes = seq<int>

  /** An extent held back: where it begins, what has come of it, and the memory set aside for it. */
  datatype Held = Held(off: int, data: Bytes, capacity: int)

  const PAGE := 32 * 1024
  const BOOKKEEPING := 128

  function Rounded(size: int): int
  {
    (size + PAGE - 1) / PAGE * PAGE
  }

  lemma RoundedUp(size: int)
    ensures size <= Rounded(size)
  {}

  function Charge(b: Held): int
  {
    b.capacity + BOOKKEEPING
  }

  function Charges(blocks: seq<Held>): int
  {
    if blocks == [] then 0 else Charge(blocks[0]) + Charges(blocks[1..])
  }

  lemma {:induction false} ChargesJoin(a: seq<Held>, b: seq<Held>)
    ensures Charges(a + b) == Charges(a) + Charges(b)
  {
    if a == [] {
      assert a + b == b;
    } else {
      assert (a + b)[1..] == a[1..] + b;
      ChargesJoin(a[1..], b);
    }
  }

  lemma ChargesInsert(blocks: seq<Held>, p: nat, b: Held)
    requires p <= |blocks|
    ensures Charges(Inserted(blocks, p, b)) == Charges(blocks) + Charge(b)
  {
    ChargesJoin(blocks[..p], blocks[p..]);
    ChargesJoin(blocks[..p] + [b], blocks[p..]);
    ChargesJoin(blocks[..p], [b]);
    assert blocks[..p] + blocks[p..] == blocks;
  }

  lemma {:induction false} ChargesUpdate(blocks: seq<Held>, p: nat, b: Held)
    requires p < |blocks| && b.capacity == blocks[p].capacity
    ensures Charges(blocks[p := b]) == Charges(blocks)
  {
    if p > 0 {
      assert blocks[p := b][1..] == blocks[1..][p - 1 := b];
      ChargesUpdate(blocks[1..], p - 1, b);
    }
  }

  /** Extents one after another: extent `t` is `[tiles[t], tiles[t + 1])`. */
  predicate Tiling(tiles: seq<int>, size: int)
  {
    && |tiles| > 0 && 0 <= tiles[0] && tiles[|tiles| - 1] <= size
    && (forall s, t :: 0 <= s < t < |tiles| ==> tiles[s] < tiles[t])
  }

  /** How far the extents have come: those before `front` are hashed, those in `held` held back, and `cur`,
      if any, has `w` bytes so far. */
  datatype Progress = Progress(front: int, held: seq<int>, cur: int, w: int)

  /** Block `i` holds extent `p.held[i]`: all of it, or of the current one what has come. */
  predicate BlockFits(file: Bytes, tiles: seq<int>, p: Progress, blocks: seq<Held>, i: int)
    requires 0 <= i < |blocks| == |p.held|
  {
    var t, b := p.held[i], blocks[i];
    && 0 <= p.front <= t < |tiles| - 1 && b.off == tiles[t] >= 0 && b.off + |b.data| <= |file|
    && b.data == file[b.off..b.off + |b.data|]
    && |b.data| == (if t == p.cur then p.w else tiles[t + 1] - tiles[t])
    && tiles[t + 1] - tiles[t] <= b.capacity
  }

  /** Everything before `next` has been hashed, in order, and nothing else. */
  predicate Fed(file: Bytes, tiles: seq<int>, p: Progress, fed: Bytes, next: int)
    requires |tiles| > 0
  {
    && 0 <= p.front < |tiles|
    && next == tiles[p.front] + (if p.cur == p.front then p.w else 0)
    && 0 <= next <= |file| && fed == file[..next]
  }

  /** The current extent is not finished: it is at the front, or held back. */
  predicate Current(tiles: seq<int>, p: Progress, off: int)
  {
    p.cur != -1 ==>
      && 0 <= p.front <= p.cur < |tiles| - 1 && 0 <= p.w < tiles[p.cur + 1] - tiles[p.cur]
      && off == tiles[p.cur] + p.w
      && (p.cur == p.front || p.cur in p.held)
  }

  /** The extents that are finished. */
  predicate IsDone(p: Progress, t: int)
  {
    0 <= t && (t < p.front || (t in p.held && t != p.cur))
  }

  ghost predicate SameDone(p: Progress, q: Progress)
  {
    forall t :: IsDone(p, t) <==> IsDone(q, t)
  }

  /** One more extent is finished. */
  ghost predicate DoneAlso(p: Progress, q: Progress, also: int)
  {
    forall t :: IsDone(q, t) <==> IsDone(p, t) || t == also
  }

  predicate Ascending(held: seq<int>)
  {
    forall i, j :: 0 <= i < j < |held| ==> held[i] < held[j]
  }

  predicate Consistent(file: Bytes, tiles: seq<int>, p: Progress, blocks: seq<Held>, fed: Bytes, next: int, off: int)
  {
    && Tiling(tiles, |file|) && Fed(file, tiles, p, fed, next) && Current(tiles, p, off)
    && |p.held| == |blocks| && Ascending(p.held)
    && (forall i :: 0 <= i < |blocks| ==> BlockFits(file, tiles, p, blocks, i))
  }

  /** Consistent, and nothing that could be hashed now is held back. */
  predicate Sound(file: Bytes, tiles: seq<int>, p: Progress, blocks: seq<Held>, fed: Bytes, next: int, off: int)
  {
    Consistent(file, tiles, p, blocks, fed, next, off) && p.front !in p.held
  }

  // ------------------------------------------------------------------ what each operation makes of it

  /** The extent at the front begins: it is hashed directly. */
  lemma BeginsDirect(file: Bytes, tiles: seq<int>, p: Progress, blocks: seq<Held>, fed: Bytes, next: int, off: int, t: int)
    requires Sound(file, tiles, p, blocks, fed, next, off) && p.cur == -1 && 0 <= t < |tiles| - 1 && !IsDone(p, t)
    requires tiles[t] == next
    ensures t == p.front && Sound(file, tiles, p.(cur := t, w := 0), blocks, fed, next, tiles[t])
    ensures SameDone(p, p.(cur := t, w := 0))
  {
    var p' := p.(cur := t, w := 0);
    forall i | 0 <= i < |blocks| ensures BlockFits(file, tiles, p', blocks, i) {
      assert BlockFits(file, tiles, p, blocks, i);
    }
  }

  function Inserted<T>(s: seq<T>, at: int, x: T): (r: seq<T>)
    requires 0 <= at <= |s|
    ensures |r| == |s| + 1 && r[at] == x
    ensures forall i :: 0 <= i < at ==> r[i] == s[i]
    ensures forall i :: at < i <= |s| ==> r[i] == s[i - 1]
  {
    s[..at] + [x] + s[at..]
  }

  lemma BlocksInsert(file: Bytes, tiles: seq<int>, p: Progress, blocks: seq<Held>, t: int, at: int, b: Held, i: int)
    requires 0 <= at <= |blocks| == |p.held| && p.cur == -1 && t !in p.held && 0 <= p.front < t < |tiles| - 1
    requires 0 <= tiles[t] <= |file| && b == Held(tiles[t], [], b.capacity) && tiles[t + 1] - tiles[t] <= b.capacity
    requires forall j :: 0 <= j < |blocks| ==> BlockFits(file, tiles, p, blocks, j)
    requires 0 <= i <= |blocks|
    ensures BlockFits(file, tiles, Progress(p.front, Inserted(p.held, at, t), t, 0), Inserted(blocks, at, b), i)
  {
    if i != at {
      var j := if i < at then i else i - 1;
      assert BlockFits(file, tiles, p, blocks, j) && p.held[j] in p.held;
    }
  }

  /** Another extent begins: an empty block takes its place among those held. */
  lemma BeginsHeld(file: Bytes, tiles: seq<int>, p: Progress, blocks: seq<Held>, fed: Bytes, next: int, off: int,
                   t: int, at: int, b: Held)
    requires Sound(file, tiles, p, blocks, fed, next, off) && p.cur == -1 && 0 <= t < |tiles| - 1 && !IsDone(p, t)
    requires tiles[t] != next && b == Held(tiles[t], [], b.capacity) && tiles[t + 1] - tiles[t] <= b.capacity
    requires 0 <= at <= |blocks|
    requires (at > 0 ==> blocks[at - 1].off < tiles[t]) && (at < |blocks| ==> blocks[at].off >= tiles[t])
    ensures Sound(file, tiles, Progress(p.front, Inserted(p.held, at, t), t, 0), Inserted(blocks, at, b), fed, next, tiles[t])
    ensures SameDone(p, Progress(p.front, Inserted(p.held, at, t), t, 0))
  {
    forall s ensures s in Inserted(p.held, at, t) <==> s == t || s in p.held {}
    if at > 0 { assert BlockFits(file, tiles, p, blocks, at - 1); }
    if at < |blocks| { assert BlockFits(file, tiles, p, blocks, at); }
    forall i | 0 <= i <= |blocks|
      ensures BlockFits(file, tiles, Progress(p.front, Inserted(p.held, at, t), t, 0), Inserted(blocks, at, b), i)
    {
      BlocksInsert(file, tiles, p, blocks, t, at, b, i);
    }
  }

  /** The same with what the list and the memory counter make of it. */
  lemma HoldsAfter(file: Bytes, tiles: seq<int>, p: Progress, blocks: seq<Held>, fed: Bytes, next: int, off: int,
                   t: int, at: int, b: Held)
    requires Sound(file, tiles, p, blocks, fed, next, off) && p.cur == -1 && 0 <= t < |tiles| - 1 && !IsDone(p, t)
    requires tiles[t] != next && b == Held(tiles[t], [], b.capacity) && tiles[t + 1] - tiles[t] <= b.capacity
    requires 0 <= at <= |blocks|
    requires (at > 0 ==> blocks[at - 1].off < tiles[t]) && (at < |blocks| ==> blocks[at].off >= tiles[t])
    ensures var q := Progress(p.front, Inserted(p.held, at, t), t, 0);
      && Sound(file, tiles, q, Inserted(blocks, at, b), fed, next, tiles[t]) && SameDone(p, q)
      && q.held[at] == t && t != p.front
    ensures Charges(Inserted(blocks, at, b)) == Charges(blocks) + Charge(b)
  {
    BeginsHeld(file, tiles, p, blocks, fed, next, off, t, at, b);
    ChargesInsert(blocks, at, b);
  }

  /** More of the extent at the front: it is hashed as it comes. */
  lemma GoesOnDirect(file: Bytes, tiles: seq<int>, p: Progress, blocks: seq<Held>, fed: Bytes, next: int, off: int, b: Bytes)
    requires Sound(file, tiles, p, blocks, fed, next, off) && p.cur == p.front
    requires p.w + |b| < tiles[p.cur + 1] - tiles[p.cur] && b == file[off..off + |b|]
    ensures Sound(file, tiles, p.(w := p.w + |b|), blocks, fed + b, next + |b|, off + |b|)
    ensures SameDone(p, p.(w := p.w + |b|))
  {
    var p' := p.(w := p.w + |b|);
    forall i | 0 <= i < |blocks| ensures BlockFits(file, tiles, p', blocks, i) {
      assert BlockFits(file, tiles, p, blocks, i);
    }
  }

  /** The last of the extent at the front. */
  lemma EndsDirect(file: Bytes, tiles: seq<int>, p: Progress, blocks: seq<Held>, fed: Bytes, next: int, off: int, b: Bytes)
    requires Sound(file, tiles, p, blocks, fed, next, off) && p.cur == p.front
    requires p.w + |b| == tiles[p.cur + 1] - tiles[p.cur] && b == file[off..off + |b|]
    ensures Consistent(file, tiles, Progress(p.front + 1, p.held, -1, 0), blocks, fed + b, next + |b|, off + |b|)
    ensures DoneAlso(p, Progress(p.front + 1, p.held, -1, 0), p.front)
  {
    var p' := Progress(p.front + 1, p.held, -1, 0);
    forall i | 0 <= i < |blocks| ensures BlockFits(file, tiles, p', blocks, i) {
      assert BlockFits(file, tiles, p, blocks, i);
      assert p.held[i] in p.held;
    }
  }

  /** The first block held comes next: it is hashed and gone. */
  lemma Drains(file: Bytes, tiles: seq<int>, p: Progress, blocks: seq<Held>, fed: Bytes, next: int, off: int)
    requires Consistent(file, tiles, p, blocks, fed, next, off) && p.cur == -1 && blocks != [] && blocks[0].off == next
    ensures p.held[0] == p.front && 0 < Charge(blocks[0])
    ensures Consistent(file, tiles, Progress(p.front + 1, p.held[1..], -1, 0), blocks[1..], fed + blocks[0].data,
                       next + |blocks[0].data|, off)
    ensures SameDone(p, Progress(p.front + 1, p.held[1..], -1, 0))
  {
    assert p.held == [p.held[0]] + p.held[1..];
    assert BlockFits(file, tiles, p, blocks, 0);
    var p' := Progress(p.front + 1, p.held[1..], -1, 0);
    forall i | 0 <= i < |blocks[1..]| ensures BlockFits(file, tiles, p', blocks[1..], i) {
      assert BlockFits(file, tiles, p, blocks, i + 1);
    }
  }

  /** While an extent is being hashed, no block comes next. */
  lemma NoneDue(file: Bytes, tiles: seq<int>, p: Progress, blocks: seq<Held>, fed: Bytes, next: int, off: int)
    requires Sound(file, tiles, p, blocks, fed, next, off) && p.cur == p.front
    ensures off == next && (blocks != [] ==> blocks[0].off != next)
  {
    if blocks != [] {
      assert BlockFits(file, tiles, p, blocks, 0) && p.held[0] in p.held;
      assert tiles[p.front + 1] <= tiles[p.held[0]];
    }
  }

  /** Where the first block does not come next, none does. */
  lemma Drained(file: Bytes, tiles: seq<int>, p: Progress, blocks: seq<Held>, fed: Bytes, next: int, off: int)
    requires Consistent(file, tiles, p, blocks, fed, next, off) && p.cur == -1
    requires blocks == [] || blocks[0].off != next
    ensures Sound(file, tiles, p, blocks, fed, next, off)
  {
    if blocks != [] { assert BlockFits(file, tiles, p, blocks, 0); }
  }

  /** More of an extent that is held back. */
  lemma GoesOnHeld(file: Bytes, tiles: seq<int>, p: Progress, blocks: seq<Held>, fed: Bytes, next: int, off: int, b: Bytes, c: int)
    requires Sound(file, tiles, p, blocks, fed, next, off) && p.cur != p.front && p.cur != -1 && 0 <= c < |blocks| && p.held[c] == p.cur
    requires p.w + |b| <= tiles[p.cur + 1] - tiles[p.cur] && b == file[off..off + |b|]
    ensures var full := p.w + |b| == tiles[p.cur + 1] - tiles[p.cur];
      Sound(file, tiles, if full then p.(cur := -1, w := 0) else p.(w := p.w + |b|),
            blocks[c := blocks[c].(data := blocks[c].data + b)], fed, next, off + |b|)
    ensures |b| <= blocks[c].capacity - |blocks[c].data| && off != next
    ensures var full := p.w + |b| == tiles[p.cur + 1] - tiles[p.cur];
      if full then DoneAlso(p, p.(cur := -1, w := 0), p.cur) else SameDone(p, p.(w := p.w + |b|))
  {
    var full := p.w + |b| == tiles[p.cur + 1] - tiles[p.cur];
    var p' := if full then p.(cur := -1, w := 0) else p.(w := p.w + |b|);
    var after := blocks[c := blocks[c].(data := blocks[c].data + b)];
    assert BlockFits(file, tiles, p, blocks, c);
    forall i | 0 <= i < |blocks| ensures BlockFits(file, tiles, p', after, i) {
      assert BlockFits(file, tiles, p, blocks, i);
    }
  }

  lemma Late(file: Bytes, tiles: seq<int>, p: Progress, blocks: seq<Held>, fed: Bytes, next: int, off: int, i: int)
    requires Sound(file, tiles, p, blocks, fed, next, off) && 0 <= i < |blocks|
    ensures p.front < p.held[i] < |tiles| - 1
  {
    assert BlockFits(file, tiles, p, blocks, i) && p.held[i] in p.held;
  }

  /** When the finished extents are the first `i`, the next one comes next. */
  lemma InTurn(file: Bytes, tiles: seq<int>, p: Progress, blocks: seq<Held>, fed: Bytes, next: int, off: int,
               order: seq<int>, i: int)
    requires Sound(file, tiles, p, blocks, fed, next, off) && p.cur == -1 && 0 <= i < |tiles| && i <= |order|
    requires forall k :: 0 <= k < |order| ==> order[k] == k
    requires forall t :: IsDone(p, t) <==> t in order[..i]
    ensures p.front == i && next == tiles[i]
  {
    assert forall t :: 0 <= t < i ==> order[..i][t] == t;
    assert i !in order[..i] && (p.front < i ==> order[..i][p.front] == p.front);
    assert !IsDone(p, p.front);
    assert i < p.front ==> IsDone(p, i);
  }

  /** Once every extent is finished, everything up to the end of the last has been hashed and nothing is held. */
  lemma AllDone(file: Bytes, tiles: seq<int>, p: Progress, blocks: seq<Held>, fed: Bytes, next: int, off: int)
    requires Sound(file, tiles, p, blocks, fed, next, off) && p.cur == -1
    requires forall t :: 0 <= t < |tiles| - 1 ==> IsDone(p, t)
    ensures blocks == [] && next == tiles[|tiles| - 1] && fed == file[..next]
  {
    assert p.front < |tiles| - 1 ==> IsDone(p, p.front);
    if blocks != [] { Late(file, tiles, p, blocks, fed, next, off, 0); }
  }

  /** The extents, in the order of the central directory, are the tiles, each once. */
  ghost predicate Covers(order: seq<int>, tiles: seq<int>, offs: seq<int>, bounds: seq<int>)
  {
    && |order| == |offs| == |bounds|
    && (forall i :: 0 <= i < |order| ==> TileAt(order, tiles, offs, bounds, i))
    && (forall t :: 0 <= t < |tiles| - 1 ==> t in order)
    && (forall i, j :: 0 <= i < j < |order| ==> order[i] != order[j])
  }

  predicate TileAt(order: seq<int>, tiles: seq<int>, offs: seq<int>, bounds: seq<int>, i: int)
    requires 0 <= i < |order| == |offs| == |bounds|
  {
    0 <= order[i] < |tiles| - 1 && offs[i] == tiles[order[i]] && bounds[i] == tiles[order[i] + 1]
  }
}
