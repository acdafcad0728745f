/** Texts kept in chunks: what the chunk table of a durable object holds, and how a text is written, read
    back and removed. */
module ChunkTable {
  type Chunks = map<(string, int), string>

  function Min(a: int, b: int): int
  {
    if a < b then a else b
  }

  function Count(length: int, size: int): int
    requires size > 0
  {
    (length + size - 1) / size
  }

  lemma CountCovers(length: int, size: int)
    requires size > 0 && length >= 0
    ensures 0 <= Count(length, size) && length <= Count(length, size) * size && (length > 0 ==> (Count(length, size) - 1) * size < length)
    ensures Count(length, size) > 0 <==> length > 0
  {
    var x := length + size - 1;
    assert x == x / size * size + x % size && 0 <= x % size < size;
    assert (x / size - 1) * size == x / size * size - size;
    if length > 0 { assert x >= size; }
  }

  /** The `n`-th chunk of a text. */
  function Slice(text: string, n: int, size: int): string
    requires size > 0 && 0 <= n && n * size <= |text|
  {
    text[n * size..Min((n + 1) * size, |text|)]
  }

  /** The table holds exactly the chunks of these texts. */
  ghost predicate Holds(chunks: Chunks, texts: map<string, string>, size: int)
    requires size > 0
  {
    && (forall k :: k in chunks ==> k.0 in texts && 0 <= k.1 < Count(|texts[k.0]|, size))
    && (forall id, n :: id in texts && 0 <= n < Count(|texts[id]|, size) ==> HoldsAt(chunks, texts[id], size, id, n))
  }

  ghost predicate HoldsAt(chunks: Chunks, text: string, size: int, id: string, n: int)
    requires size > 0
  {
    (id, n) in chunks && 0 <= n && n * size <= |text| && chunks[(id, n)] == Slice(text, n, size)
  }

  lemma SliceJoins(text: string, n: int, size: int)
    requires size > 0 && 0 <= n < Count(|text|, size)
    ensures n * size <= |text|
    ensures text[..n * size] + Slice(text, n, size) == text[..Min((n + 1) * size, |text|)]
  {
    CountCovers(|text|, size);
  }

  /** Writes a text in chunks. */
  method Write(chunks0: Chunks, id: string, text: string, size: int) returns (chunks: Chunks)
    requires size > 0
    ensures Began(chunks0, chunks, id, text, size, Count(|text|, size))
  {
    chunks := chunks0;
    var count := Count(|text|, size);
    CountCovers(|text|, size);
    for n := 0 to count
      invariant Began(chunks0, chunks, id, text, size, n)
    {
      SliceJoins(text, n, size);
      ghost var was := chunks;
      chunks := chunks[(id, n) := Slice(text, n, size)];
      forall m | 0 <= m <= n ensures HoldsAt(chunks, text, size, id, m) {
        if m < n { assert HoldsAt(was, text, size, id, m); }
      }
    }
  }

  /** The first `n` chunks of a text have been put to those there were. */
  ghost predicate Began(before: Chunks, chunks: Chunks, id: string, text: string, size: int, n: int)
    requires size > 0
  {
    && (forall k :: k in chunks ==> k in before || (k.0 == id && 0 <= k.1 < n))
    && (forall k :: k in before ==> k in chunks && (k.0 != id ==> chunks[k] == before[k]))
    && (forall m :: 0 <= m < n ==> HoldsAt(chunks, text, size, id, m))
  }

  /** A text written under a name that has none is held with the others. */
  lemma Written(before: Chunks, chunks: Chunks, id: string, text: string, size: int, texts: map<string, string>)
    requires size > 0 && Holds(before, texts, size) && id !in texts && Began(before, chunks, id, text, size, Count(|text|, size))
    ensures Holds(chunks, texts[id := text], size)
  {
    var all := texts[id := text];
    forall i, n | i in all && 0 <= n < Count(|all[i]|, size)
      ensures HoldsAt(chunks, all[i], size, i, n)
    {
      if i != id { assert HoldsAt(before, texts[i], size, i, n); }
    }
  }

  /** Reads the chunks of a name in order and joins them. */
  method Read(chunks: Chunks, id: string, count: int, size: int, ghost texts: map<string, string>) returns (ok: bool, text: string)
    requires size > 0 && Holds(chunks, texts, size) && id in texts
    ensures count == Count(|texts[id]|, size) ==> ok && text == texts[id]
  {
    ghost var whole := texts[id];
    ghost var right := count == Count(|whole|, size);
    text := [];
    assert whole[..0] == [];
    CountCovers(|whole|, size);
    var n := 0;
    while n < count
      invariant 0 <= n && (right ==> n <= count && text == whole[..Min(n * size, |whole|)])
    {
      if right {
        assert HoldsAt(chunks, whole, size, id, n);
        SliceJoins(whole, n, size);
      }
      if (id, n) !in chunks { return false, text; }
      text, n := text + chunks[(id, n)], n + 1;
    }
    ok := true;
    assert whole[..|whole|] == whole;
  }

  /** The table without a name's chunks. */
  function Without(chunks: Chunks, id: string): (r: Chunks)
    ensures forall k :: k in r <==> k in chunks && k.0 != id
    ensures forall k :: k in r ==> r[k] == chunks[k]
  {
    map k | k in chunks && k.0 != id :: chunks[k]
  }

  lemma Removed(chunks: Chunks, id: string, size: int, texts: map<string, string>)
    requires size > 0 && Holds(chunks, texts, size)
    ensures Holds(Without(chunks, id), texts - {id}, size)
  {
    forall i, n | i in texts - {id} && 0 <= n < Count(|texts[i]|, size)
      ensures HoldsAt(Without(chunks, id), texts[i], size, i, n)
    {
      assert HoldsAt(chunks, texts[i], size, i, n);
    }
  }
}
