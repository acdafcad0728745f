/** What the audit log's files hold: lines of entries that form one hash chain, split over rotation
    files, with at most an unfinished line at the very end. */
module AuditChain {
  type Bytes = seq<int>

  const NEWLINE := 10
  const ROTATION := 100_000_000

  /** A line and its newline must fit the reader's buffer. */
  const BUFFER := 2 * 1024 * 1024

  datatype Option<T> = None | Some(value: T)

  /** A digest determines the bytes it was taken of; the first entry follows none. */
  datatype Hash = Genesis | Digest(of: Bytes)

  datatype Entry = Entry(seqNo: int, time: string, kind: string, body: Bytes, prev: Hash)

  /** Canonical, signed JSON of an entry; the parser of such text; the rules for a report's body. */
  datatype Codec = Codec(encode: Entry -> Bytes, parse: Bytes -> Option<Entry>, report: Bytes -> bool)

  /** An entry's bytes are one line, and are parsed as that entry. */
  ghost predicate Faithful(c: Codec)
  {
    forall e :: c.parse(c.encode(e)) == Some(e) && NEWLINE !in c.encode(e)
  }

  const REPORT_LIMIT := 1024 * 1024

  /** What is asked of an entry beside its signature and its place in the chain. */
  predicate Acceptable(c: Codec, e: Entry)
  {
    && e.seqNo > 0 && e.kind != ""
    && (e.kind == "scan_report" ==> |c.encode(e)| <= REPORT_LIMIT && c.report(e.body))
  }

  /** The entry that bytes are the canonical, signed form of. */
  function Validate(c: Codec, raw: Bytes): (r: Option<Entry>)
    ensures r.Some? ==> c.encode(r.value) == raw && Acceptable(c, r.value)
    ensures forall e :: Faithful(c) && Acceptable(c, e) && c.encode(e) == raw ==> r == Some(e)
  {
    match c.parse(raw)
    case None => None
    case Some(e) => if c.encode(e) == raw && Acceptable(c, e) then Some(e) else None
  }

  function Line(c: Codec, e: Entry): Bytes
  {
    c.encode(e) + [NEWLINE]
  }

  function Text(c: Codec, es: seq<Entry>): Bytes
  {
    if es == [] then [] else Text(c, es[..|es| - 1]) + Line(c, es[|es| - 1])
  }

  function HashOf(c: Codec, es: seq<Entry>): Hash
  {
    if es == [] then Genesis else Digest(c.encode(es[|es| - 1]))
  }

  /** Sequence numbers count from one, and each entry names the bytes of the one before. */
  ghost predicate Chain(c: Codec, es: seq<Entry>)
  {
    forall i :: 0 <= i < |es| ==> Linked(c, es, i)
  }

  ghost predicate Linked(c: Codec, es: seq<Entry>, i: int)
    requires 0 <= i < |es|
  {
    es[i].seqNo == i + 1 && es[i].prev == HashOf(c, es[..i]) && Acceptable(c, es[i])
  }

  /** File `f` begins after the first `starts[f]` of `n` entries. */
  predicate Split(starts: seq<int>, n: int)
  {
    && (starts == [] ==> n == 0) && (starts != [] ==> starts[0] == 0)
    && (forall f :: 0 <= f < |starts| ==> 0 <= starts[f] <= n)
    && (forall f, g :: 0 <= f <= g < |starts| ==> starts[f] <= starts[g])
  }

  function End(starts: seq<int>, n: int, f: int): int
    requires 0 <= f < |starts|
  {
    if f + 1 < |starts| then starts[f + 1] else n
  }

  /** The entries of file `f`. */
  function Part(es: seq<Entry>, starts: seq<int>, f: int): seq<Entry>
    requires Split(starts, |es|) && 0 <= f < |starts|
  {
    es[starts[f]..End(starts, |es|, f)]
  }

  /** The files hold exactly these entries, split so, and after the last of them `tail`. */
  ghost predicate Image(c: Codec, disk: seq<Bytes>, es: seq<Entry>, starts: seq<int>, tail: Bytes)
  {
    && Split(starts, |es|) && |starts| == |disk| && NEWLINE !in tail && (disk == [] ==> tail == [])
    && (forall f :: 0 <= f < |disk| ==> FileIs(c, disk, es, starts, tail, f))
    && Chain(c, es)
  }

  ghost predicate FileIs(c: Codec, disk: seq<Bytes>, es: seq<Entry>, starts: seq<int>, tail: Bytes, f: int)
    requires Split(starts, |es|) && |starts| == |disk| && 0 <= f < |disk|
  {
    disk[f] == Text(c, Part(es, starts, f)) + TailOf(|disk|, f, tail)
  }

  function TailOf(files: nat, f: int, tail: Bytes): Bytes
  {
    if f == files - 1 then tail else []
  }

  /** Every line fits the reader's buffer. */
  ghost predicate Fits(c: Codec, es: seq<Entry>, tail: Bytes)
  {
    && (forall e :: e in es ==> |c.encode(e)| < BUFFER)
    && |tail| < BUFFER
  }

  // ------------------------------------------------------------------ lists and texts

  lemma {:induction false} TextJoin(c: Codec, a: seq<Entry>, b: seq<Entry>)
    ensures Text(c, a + b) == Text(c, a) + Text(c, b)
  {
    if b == [] {
      assert a + b == a;
    } else {
      var front, e := b[..|b| - 1], b[|b| - 1];
      assert a + b == (a + front) + [e];
      assert (a + b)[..|a + b| - 1] == a + front;
      TextJoin(c, a, front);
    }
  }

  /** The text of a prefix is a prefix of the text, and the next line starts there. */
  lemma NextLine(c: Codec, es: seq<Entry>, i: nat)
    requires i < |es|
    ensures Text(c, es) == Text(c, es[..i]) + Line(c, es[i]) + Text(c, es[i + 1..])
    ensures Text(c, es[..i + 1]) == Text(c, es[..i]) + Line(c, es[i])
  {
    assert es[..i + 1][..i] == es[..i];
    assert es == es[..i + 1] + es[i + 1..];
    TextJoin(c, es[..i + 1], es[i + 1..]);
  }

  /** A chain is extended by the entry that names its last. */
  lemma ChainExtends(c: Codec, es: seq<Entry>, e: Entry)
    requires Chain(c, es) && e.seqNo == |es| + 1 && e.prev == HashOf(c, es) && Acceptable(c, e)
    ensures Chain(c, es + [e])
  {
    forall i | 0 <= i < |es + [e]| ensures Linked(c, es + [e], i) {
      assert i < |es| ==> Linked(c, es, i);
      assert (es + [e])[..i] == es[..i];
    }
  }

  lemma ChainPrefix(c: Codec, es: seq<Entry>, n: nat)
    requires Chain(c, es) && n <= |es|
    ensures Chain(c, es[..n])
  {
    forall i | 0 <= i < n ensures Linked(c, es[..n], i) {
      assert Linked(c, es, i);
      assert es[..n][..i] == es[..i];
    }
  }

  // ------------------------------------------------------------------ rotations

  datatype Rotation = Rotation(first: int, path: int)

  /** One rotation for every file that holds an entry. */
  function RotationsOf(starts: seq<int>, n: int): seq<Rotation>
  {
    if starts == [] then []
    else
      var m := |starts| - 1;
      RotationsOf(starts[..m], starts[m]) + if starts[m] < n then [Rotation(starts[m] + 1, m)] else []
  }

  /** Rotations start in order, the first of them at entry one. */
  lemma {:induction false} RotationsRise(starts: seq<int>, n: int)
    requires Split(starts, n)
    ensures var rs := RotationsOf(starts, n);
      && (n > 0 ==> rs != [] && rs[0].first == 1)
      && (forall i :: 0 <= i < |rs| ==> 1 <= rs[i].first <= n)
      && (forall i, j :: 0 <= i < j < |rs| ==> rs[i].first < rs[j].first)
  {
    if starts != [] {
      RotationsRise(starts[..|starts| - 1], starts[|starts| - 1]);
    }
  }

  /** The last rotation starting at or before entry `k` is the file that holds it. */
  lemma {:induction false} RotationHolds(starts: seq<int>, n: int, i: int, k: int)
    requires Split(starts, n)
    requires var rs := RotationsOf(starts, n);
      0 <= i < |rs| && rs[i].first <= k <= n && (i + 1 < |rs| ==> k < rs[i + 1].first)
    ensures var r := RotationsOf(starts, n)[i];
      0 <= r.path < |starts| && r.first == starts[r.path] + 1 && k <= End(starts, n, r.path)
  {
    var m := |starts| - 1;
    var front := RotationsOf(starts[..m], starts[m]);
    if i < |front| {
      RotationsRise(starts[..m], starts[m]);
      RotationHolds(starts[..m], starts[m], i, k);
    }
  }

  /** Writing into the last file, or into a new one, adds a rotation just when that file held nothing. */
  lemma RotationsGrow(starts: seq<int>, n: int, at: int)
    requires Split(starts, n) && |starts| - 1 <= at <= |starts| && 0 <= at
    ensures RotationsOf(if at == |starts| then starts + [n] else starts, n + 1)
      == if at == |starts| || starts[at] == n then RotationsOf(starts, n) + [Rotation(n + 1, at)]
         else RotationsOf(starts, n)
  {
    if at == |starts| { assert (starts + [n])[..at] == starts; }
  }
}
