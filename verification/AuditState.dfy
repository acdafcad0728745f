/** What the audit log holds in memory and on disk, how the two agree, and what each operation makes of them. */
module AuditState {
  import opened AuditChain
  import opened AuditReader

  datatype Cursor = Cursor(seqNo: int, path: int, offset: int)

  // ------------------------------------------------------------------ writing to the files

  /** Bytes added to file `at`, which is the last one or a new one. */
  function Written(disk: seq<Bytes>, at: nat, bytes: Bytes): seq<Bytes>
    requires |disk| - 1 <= at <= |disk|
  {
    if at == |disk| then disk + [bytes] else disk[at := disk[at] + bytes]
  }

  function Started(starts: seq<int>, at: nat, n: int): seq<int>
  {
    if at == |starts| then starts + [n] else starts
  }

  lemma StartedSplits(starts: seq<int>, at: nat, n: int, m: int)
    requires Split(starts, n) && n <= m && |starts| - 1 <= at <= |starts|
    ensures Split(Started(starts, at, n), m)
  {}

  lemma PartStays(es: seq<Entry>, more: seq<Entry>, from: int, to: int)
    requires 0 <= from <= to <= |es|
    ensures (es + more)[from..to] == es[from..to] && (es + more)[from..] == es[from..] + more
  {}

  lemma PartsGrow(es: seq<Entry>, starts: seq<int>, at: nat, more: seq<Entry>, f: nat)
    requires Split(starts, |es|) && |starts| - 1 <= at <= |starts|
    requires f < |Started(starts, at, |es|)|
    ensures Split(Started(starts, at, |es|), |es + more|)
    ensures f < at ==> f < |starts| && Part(es + more, Started(starts, at, |es|), f) == Part(es, starts, f)
    ensures f == at < |starts| ==> Part(es + more, Started(starts, at, |es|), f) == Part(es, starts, f) + more
    ensures f == at == |starts| ==> Part(es + more, Started(starts, at, |es|), f) == more
  {
    StartedSplits(starts, at, |es|, |es + more|);
    var all := es + more;
    if f < |starts| {
      PartStays(es, more, starts[f], End(starts, |es|, f));
      assert all[starts[f]..] == all[starts[f]..|all|] && es[starts[f]..] == es[starts[f]..|es|];
    } else {
      PartStays(es, more, |es|, |es|);
      assert all[|es|..] == all[|es|..|all|];
    }
  }

  lemma TextGrows(c: Codec, part: seq<Entry>, more: seq<Entry>, t: Bytes)
    ensures Text(c, part) + [] + (Text(c, more) + t) == Text(c, part + more) + t
  {
    TextJoin(c, part, more);
    var x, y := Text(c, part), Text(c, more);
    assert x + [] + (y + t) == (x + y) + t;
  }

  lemma FileWritten(c: Codec, disk: seq<Bytes>, es: seq<Entry>, starts: seq<int>, at: nat, more: seq<Entry>, t: Bytes, f: nat)
    requires Split(starts, |es|) && |starts| == |disk| && |disk| - 1 <= at <= |disk|
    requires f < |disk| ==> FileIs(c, disk, es, starts, [], f)
    requires Split(Started(starts, at, |es|), |es + more|) && f < |Written(disk, at, Text(c, more) + t)|
    ensures FileIs(c, Written(disk, at, Text(c, more) + t), es + more, Started(starts, at, |es|), t, f)
  {
    PartsGrow(es, starts, at, more, f);
    if f == at && at < |disk| {
      TextGrows(c, Part(es, starts, f), more, t);
    }
  }

  /** Entries and then an unfinished line, added to files that end in a whole line. */
  lemma ImageWritten(c: Codec, disk: seq<Bytes>, es: seq<Entry>, starts: seq<int>, at: nat, more: seq<Entry>, t: Bytes)
    requires Image(c, disk, es, starts, []) && |disk| - 1 <= at <= |disk| && NEWLINE !in t
    requires Chain(c, es + more)
    ensures Image(c, Written(disk, at, Text(c, more) + t), es + more, Started(starts, at, |es|), t)
  {
    PartsGrow(es, starts, at, more, at);
    forall f | 0 <= f < |Written(disk, at, Text(c, more) + t)|
      ensures FileIs(c, Written(disk, at, Text(c, more) + t), es + more, Started(starts, at, |es|), t, f)
    {
      assert f < |disk| ==> FileIs(c, disk, es, starts, [], f);
      FileWritten(c, disk, es, starts, at, more, t, f);
    }
  }

  // ------------------------------------------------------------------ memory and disk

  /** Where the cursor stands: just after an entry of one of the files. */
  ghost predicate CursorFits(c: Codec, es: seq<Entry>, starts: seq<int>, cursor: Cursor)
    requires Split(starts, |es|)
  {
    0 <= cursor.path ==>
      && cursor.path < |starts|
      && starts[cursor.path] <= cursor.seqNo <= End(starts, |es|, cursor.path)
      && cursor.offset == |Text(c, es[starts[cursor.path]..cursor.seqNo])|
  }

  /** Nothing that was there is gone, and at most one entry has come. */
  predicate Kept(es: seq<Entry>, starts: seq<int>, now: seq<Entry>, begun: seq<int>)
  {
    && es <= now && |now| <= |es| + 1
    && starts <= begun && (forall f :: |starts| <= f < |begun| ==> |es| <= begun[f])
  }

  /** What the object holds in memory. */
  datatype Memory = Memory(seqNo: int, prev: Hash, last: Option<Entry>, index: int, size: int,
                           rotations: seq<Rotation>, cursor: Cursor, failed: bool)

  /** The entries that appends have returned or opening has read, with the starts of their files; then
      the same for what is on disk, and the unfinished line there. */
  datatype History = History(entries: seq<Entry>, starts: seq<int>, stored: seq<Entry>, begun: seq<int>, tail: Bytes)

  ghost predicate Durable(c: Codec, disk: seq<Bytes>, m: Memory, h: History)
  {
    && Faithful(c) && Image(c, disk, h.stored, h.begun, h.tail)
    && Split(h.starts, |h.entries|) && Kept(h.entries, h.starts, h.stored, h.begun)
    && (!m.failed ==> h.entries == h.stored && h.starts == h.begun && h.tail == [])
  }

  ghost predicate Remembered(c: Codec, m: Memory, h: History)
    requires Split(h.starts, |h.entries|)
  {
    && m.seqNo == |h.entries| && m.prev == HashOf(c, h.entries) && m.last == LastOf(h.entries)
    && m.rotations == RotationsOf(h.starts, |h.entries|)
    && CursorFits(c, h.entries, h.starts, m.cursor)
  }

  /** The next line goes to the end of the last file or to a new one. */
  predicate Placing(disk: seq<Bytes>, m: Memory)
  {
    !m.failed ==> (m.index == |disk| && m.size == 0) || (0 <= m.index == |disk| - 1 && m.size == |disk[m.index]|)
  }

  ghost predicate Good(c: Codec, disk: seq<Bytes>, m: Memory, h: History)
  {
    Durable(c, disk, m, h) && Remembered(c, m, h) && Placing(disk, m)
  }

  /** Memory after an entry's line has been written and synced. */
  function Counted(m: Memory, e: Entry, line: Bytes): Memory
  {
    m.(seqNo := m.seqNo + 1, prev := Digest(line), last := Some(e), size := m.size + |line| + 1,
       rotations := if m.size == 0 then m.rotations + [Rotation(m.seqNo + 1, m.index)] else m.rotations)
  }

  function Grown(h: History, at: nat, e: Entry): History
  {
    var es, starts := h.entries + [e], Started(h.starts, at, |h.entries|);
    History(es, starts, es, starts, [])
  }

  lemma CountedIsDurable(c: Codec, disk: seq<Bytes>, m: Memory, h: History, e: Entry)
    requires Durable(c, disk, m, h) && Placing(disk, m) && !m.failed && Chain(c, h.entries + [e])
    ensures Durable(c, Written(disk, m.index, Line(c, e)), Counted(m, e, c.encode(e)), Grown(h, m.index, e))
  {
    LineText(c, e);
    ImageWritten(c, disk, h.entries, h.starts, m.index, [e], []);
  }

  lemma CountedIsRemembered(c: Codec, disk: seq<Bytes>, m: Memory, h: History, e: Entry)
    requires Good(c, disk, m, h) && !m.failed && Chain(c, h.entries + [e])
    ensures Split(Grown(h, m.index, e).starts, |h.entries + [e]|)
    ensures Remembered(c, Counted(m, e, c.encode(e)), Grown(h, m.index, e))
  {
    SizeTells(c, disk, h.entries, h.starts, m.index, m.size);
    RotationsGrow(h.starts, |h.entries|, m.index);
    CursorStays(c, h.entries, h.starts, m.index, e, m.cursor);
  }

  lemma CountedIsGood(c: Codec, disk: seq<Bytes>, m: Memory, h: History, e: Entry)
    requires Good(c, disk, m, h) && !m.failed && Chain(c, h.entries + [e])
    ensures Good(c, Written(disk, m.index, Line(c, e)), Counted(m, e, c.encode(e)), Grown(h, m.index, e))
  {
    CountedIsDurable(c, disk, m, h, e);
    CountedIsRemembered(c, disk, m, h, e);
  }

  function UpTo(bytes: Bytes, n: nat): Bytes
  {
    if n < |bytes| then bytes[..n] else bytes
  }

  /** What is on disk after a broken append: the whole line, or the beginning of it. */
  function Torn(h: History, at: nat, e: Entry, whole: bool, part: Bytes): History
  {
    var begun := Started(h.starts, at, |h.entries|);
    if whole then h.(stored := h.entries + [e], begun := begun) else h.(begun := begun, tail := part)
  }

  lemma TornIsGood(c: Codec, disk: seq<Bytes>, m: Memory, h: History, e: Entry, kept: nat)
    requires Good(c, disk, m, h) && !m.failed && Chain(c, h.entries + [e])
    ensures var line := c.encode(e);
      Good(c, Written(disk, m.index, UpTo(Line(c, e), kept)), m.(failed := true),
           Torn(h, m.index, e, kept > |line|, UpTo(line, kept)))
  {
    var line := c.encode(e);
    if kept > |line| {
      LineText(c, e);
      ImageWritten(c, disk, h.entries, h.starts, m.index, [e], []);
    } else {
      var part := UpTo(line, kept);
      assert part == UpTo(Line(c, e), kept);
      assert NEWLINE !in part by { assert forall i :: 0 <= i < |part| ==> part[i] == line[i]; }
      assert h.entries + [] == h.entries && Text(c, []) + part == part;
      ImageWritten(c, disk, h.entries, h.starts, m.index, [], part);
    }
  }

  // ------------------------------------------------------------------ reading

  /** After its first `j` entries a text goes on with the line of the next. */
  lemma LineAt(c: Codec, part: seq<Entry>, j: int, tail: Bytes)
    requires 0 <= j < |part|
    ensures var offset := |Text(c, part[..j])|;
      && offset + |c.encode(part[j])| < |Text(c, part) + tail|
      && (Text(c, part) + tail)[offset..] == c.encode(part[j]) + [NEWLINE] + (Text(c, part[j + 1..]) + tail)
      && offset + |c.encode(part[j])| + 1 == |Text(c, part[..j + 1])|
  {
    NextLine(c, part, j);
    var x, e, z := Text(c, part[..j]), c.encode(part[j]), Text(c, part[j + 1..]);
    assert x + (e + [NEWLINE]) + z + tail == x + (e + [NEWLINE] + (z + tail));
  }

  /** What the object knows of a file is how the file begins. */
  lemma SamePart(h: History, p: int, i: int)
    requires Split(h.starts, |h.entries|) && Split(h.begun, |h.stored|) && Kept(h.entries, h.starts, h.stored, h.begun)
    requires 0 <= p < |h.starts| && h.starts[p] <= i < End(h.starts, |h.entries|, p)
    ensures var s, part := h.starts[p], Part(h.stored, h.begun, p);
      && i - s < |part| && part[i - s] == h.entries[i]
      && part[..i - s] == h.entries[s..i] && part[..i - s + 1] == h.entries[s..i + 1]
  {
    assert h.begun[p] == h.starts[p] && i < End(h.begun, |h.stored|, p);
  }

  /** File `p` goes on, after its entries before the `i`-th, with the line of that one. */
  lemma LineOnDisk(c: Codec, disk: seq<Bytes>, m: Memory, h: History, p: int, i: int, offset: int) returns (rest: Bytes)
    requires Good(c, disk, m, h) && 0 <= p < |h.starts| && h.starts[p] <= i < End(h.starts, |h.entries|, p)
    requires offset == |Text(c, h.entries[h.starts[p]..i])|
    ensures p < |disk| && offset + |c.encode(h.entries[i])| < |disk[p]|
    ensures disk[p][offset..] == c.encode(h.entries[i]) + [NEWLINE] + rest
    ensures offset + |c.encode(h.entries[i])| + 1 == |Text(c, h.entries[h.starts[p]..i + 1])|
  {
    assert FileIs(c, disk, h.stored, h.begun, h.tail, p);
    var s, part := h.starts[p], Part(h.stored, h.begun, p);
    SamePart(h, p, i);
    LineAt(c, part, i - s, TailOf(|disk|, p, h.tail));
    rest := Text(c, part[i - s + 1..]) + TailOf(|disk|, p, h.tail);
  }

  lemma NextWalked(c: Codec, file: Bytes, part: seq<Entry>, j: int, offset: int, line: Bytes, found: Found)
    requires Faithful(c) && file == Text(c, part) && 0 <= j <= |part| && offset == |Text(c, part[..j])|
    requires IsNext(file, offset, BUFFER, line, found)
    ensures j == |part| ==> found == Cut && line == []
    ensures j < |part| ==> (found == Whole <==> |c.encode(part[j])| < BUFFER) && found != Cut
    ensures j < |part| && found == Whole ==> c.parse(line[..|line| - 1]) == Some(part[j])
    ensures j < |part| && found == Whole ==> offset + |line| == |Text(c, part[..j + 1])|
  {
    if j == |part| {
      assert part[..j] == part;
    } else {
      LineAt(c, part, j, []);
      var e, rest := c.encode(part[j]), Text(c, part[j + 1..]) + [];
      assert file + [] == file;
      if |e| < BUFFER {
        LineIsRead(file, offset, e, rest, line, found, BUFFER);
        assert line[..|line| - 1] == e;
      }
    }
  }

  /** The number of entries in the files before `f`. */
  function Begin(h: History, f: int): int
    requires 0 <= f <= |h.starts|
  {
    if f < |h.starts| then h.starts[f] else |h.entries|
  }

  lemma PartText(c: Codec, disk: seq<Bytes>, m: Memory, h: History, f: int)
    requires Good(c, disk, m, h) && !m.failed && 0 <= f < |disk|
    ensures disk[f] == Text(c, Part(h.entries, h.starts, f))
    ensures h.entries[..Begin(h, f + 1)] == h.entries[..Begin(h, f)] + Part(h.entries, h.starts, f)
    ensures forall i :: 0 <= i < |Part(h.entries, h.starts, f)| ==> Part(h.entries, h.starts, f)[i] == h.entries[Begin(h, f) + i]
  {
    assert FileIs(c, disk, h.stored, h.begun, h.tail, f);
  }

  predicate Short(c: Codec, es: seq<Entry>)
  {
    forall i :: 0 <= i < |es| ==> |c.encode(es[i])| < BUFFER
  }

  /** Visits the entries of one file; a last line without its newline is visited too. */
  method WalkFile(c: Codec, file: Bytes, ghost part: seq<Entry>) returns (ok: bool, es: seq<Entry>)
    requires Faithful(c)
    ensures file == Text(c, part) ==> (ok <==> Short(c, part)) && (ok ==> es == part)
  {
    es := [];
    var offset := 0;
    ghost var known := file == Text(c, part);
    while true
      invariant 0 <= offset <= |file|
      invariant known ==> es <= part && offset == |Text(c, part[..|es|])| && Short(c, es)
      decreases |file| - offset
    {
      var line, found := NextLineOf(file, offset, BUFFER);
      if known { NextWalked(c, file, part, |es|, offset, line, found); }
      if found == TooLong { return false, es; }
      if line == [] { return true, es; }
      var token := if found == Whole then line[..|line| - 1] else line;
      var entry := c.parse(token);
      if entry.None? { return false, es; }
      es, offset := es + [entry.value], offset + |line|;
    }
  }

  lemma StaysInFile(c: Codec, disk: seq<Bytes>, m: Memory, h: History, p: int, i: int, offset: int)
    requires Good(c, disk, m, h) && 0 <= p < |h.starts| && h.starts[p] <= i < End(h.starts, |h.entries|, p)
    requires offset == |Text(c, h.entries[h.starts[p]..i])|
    ensures p < |disk| && 0 <= offset <= |disk[p]|
  {
    var rest := LineOnDisk(c, disk, m, h, p, i, offset);
  }

  lemma NextOnDisk(c: Codec, disk: seq<Bytes>, m: Memory, h: History, p: int, i: int, offset: int, line: Bytes, found: Found)
    requires Good(c, disk, m, h) && 0 <= p < |h.starts| && h.starts[p] <= i < End(h.starts, |h.entries|, p)
    requires offset == |Text(c, h.entries[h.starts[p]..i])| && p < |disk|
    requires IsNext(disk[p], offset, |disk[p]| + 1, line, found)
    ensures line == Line(c, h.entries[i]) && c.parse(line[..|line| - 1]) == Some(h.entries[i])
    ensures offset + |line| == |Text(c, h.entries[h.starts[p]..i + 1])|
  {
    var rest := LineOnDisk(c, disk, m, h, p, i, offset);
    var e := c.encode(h.entries[i]);
    LineIsRead(disk[p], offset, e, rest, line, found, |disk[p]| + 1);
    assert line[..|line| - 1] == e;
  }

  // ------------------------------------------------------------------ opening

  /** The files before file `f`. */
  lemma ImageFront(c: Codec, disk: seq<Bytes>, es: seq<Entry>, starts: seq<int>, t: Bytes, f: nat)
    requires Image(c, disk, es, starts, t) && f < |disk|
    ensures Split(starts[..f], |es[..starts[f]]|) && Image(c, disk[..f], es[..starts[f]], starts[..f], [])
  {
    var n := starts[f];
    forall g | 0 <= g < f ensures FileIs(c, disk[..f], es[..n], starts[..f], [], g) {
      assert FileIs(c, disk, es, starts, t, g);
      assert Part(es[..n], starts[..f], g) == Part(es, starts, g);
    }
    ChainPrefix(c, es, n);
  }

  /** In files that can be read, each file can be read after those before it. */
  lemma FileReads(c: Codec, disk: seq<Bytes>, es: seq<Entry>, starts: seq<int>, t: Bytes, f: nat)
    requires Image(c, disk, es, starts, t) && Fits(c, es, t) && f < |disk|
    ensures Reads(c, disk[f], f == |disk| - 1, es[..starts[f]], Part(es, starts, f), TailOf(|disk|, f, t))
  {
    assert FileIs(c, disk, es, starts, t, f);
    var n := End(starts, |es|, f);
    assert es[..starts[f]] + Part(es, starts, f) == es[..n];
    ChainPrefix(c, es, n);
    forall e | e in Part(es, starts, f) ensures e in es {}
  }

  /** One more file has been read. */
  lemma FileAdded(c: Codec, disk: seq<Bytes>, es: seq<Entry>, starts: seq<int>, more: seq<Entry>, t: Bytes, f: nat, final: bool)
    requires f < |disk| && Image(c, disk[..f], es, starts, []) && Reads(c, disk[f], final, es, more, t)
    ensures Image(c, disk[..f + 1], es + more, starts + [|es|], t)
    ensures RotationsOf(starts + [|es|], |es + more|)
      == if more == [] then RotationsOf(starts, |es|) else RotationsOf(starts, |es|) + [Rotation(|es| + 1, f)]
  {
    ImageWritten(c, disk[..f], es, starts, f, more, t);
    assert Written(disk[..f], f, disk[f]) == disk[..f + 1];
    assert (starts + [|es|])[..f] == starts;
  }

  /** Where one file cannot be read after those before it, the whole cannot. */
  lemma NothingFits(c: Codec, disk: seq<Bytes>, es: seq<Entry>, starts: seq<int>, f: nat, final: bool)
    requires Faithful(c) && f < |disk| && Image(c, disk[..f], es, starts, []) && final == (f == |disk| - 1)
    requires forall g, t :: !Reads(c, disk[f], final, es, g, t)
    ensures !Readable(c, disk)
  {
    forall es', starts', t | Image(c, disk, es', starts', t) && Fits(c, es', t) ensures false {
      ImageFront(c, disk, es', starts', t, f);
      ImageUnique(c, disk[..f], es, starts, [], es'[..starts'[f]], starts'[..f], []);
      FileReads(c, disk, es', starts', t, f);
    }
  }

  /** The files hold one chain of entries that fit the reader, and no more than an unfinished line after it. */
  ghost predicate Readable(c: Codec, disk: seq<Bytes>)
  {
    exists es, starts, t :: Image(c, disk, es, starts, t) && Fits(c, es, t)
  }

  /** Reads all files in order; `fragment` is the unfinished line at the end of the last. */
  method ReadFiles(c: Codec, disk: seq<Bytes>)
    returns (ok: bool, seqNo: int, prev: Hash, last: Option<Entry>, rotations: seq<Rotation>, fragment: Bytes,
             ghost es: seq<Entry>, ghost starts: seq<int>)
    requires Faithful(c)
    ensures ok <==> Readable(c, disk)
    ensures ok ==> Image(c, disk, es, starts, fragment) && Fits(c, es, fragment)
    ensures ok ==> seqNo == |es| && prev == HashOf(c, es) && last == LastOf(es) && rotations == RotationsOf(starts, |es|)
  {
    ok, seqNo, prev, last, rotations, fragment, es, starts := true, 0, Genesis, None, [], [], [], [];
    var f := 0;
    assert disk[..0] == [];
    while f < |disk|
      invariant f <= |disk| && Image(c, disk[..f], es, starts, fragment) && Fits(c, es, fragment)
      invariant f < |disk| ==> fragment == []
      invariant seqNo == |es| && prev == HashOf(c, es) && last == LastOf(es) && rotations == RotationsOf(starts, |es|)
    {
      ghost var more;
      var first, offset, final := seqNo, 0, f == |disk| - 1;
      assert es + [] == es;
      ok, seqNo, prev, last, offset, fragment, more := ReadFile(c, disk[f], final, seqNo, prev, last, es);
      if !ok {
        NothingFits(c, disk, es, starts, f, final);
        return;
      }
      FileAdded(c, disk, es, starts, more, fragment, f, final);
      if seqNo > first { rotations := rotations + [Rotation(first + 1, f)]; }
      starts := starts + [|es|];
      es := es + more;
      f := f + 1;
    }
    assert disk[..f] == disk;
  }

  /** The last file without its unfinished line. */
  function Truncated(disk: seq<Bytes>, fragment: Bytes): seq<Bytes>
  {
    if disk == [] || |fragment| > |disk[|disk| - 1]| then disk
    else var n := |disk| - 1; disk[n := disk[n][..|disk[n]| - |fragment|]]
  }

  lemma TruncatedIsWhole(c: Codec, disk: seq<Bytes>, es: seq<Entry>, starts: seq<int>, t: Bytes)
    requires Image(c, disk, es, starts, t)
    ensures Image(c, Truncated(disk, t), es, starts, [])
    ensures t == [] ==> Truncated(disk, t) == disk
  {
    var cut := Truncated(disk, t);
    forall f | 0 <= f < |disk| ensures FileIs(c, cut, es, starts, [], f) {
      assert FileIs(c, disk, es, starts, t, f);
      var text := Text(c, Part(es, starts, f));
      assert text + [] == text && (text + t)[..|text|] == text;
    }
    if t == [] && disk != [] {
      var n := |disk| - 1;
      assert disk[n][..|disk[n]| - |t|] == disk[n];
    }
  }

  /** Memory as opening leaves it. */
  function Opened(c: Codec, disk: seq<Bytes>, es: seq<Entry>, starts: seq<int>): Memory
  {
    var at := if disk == [] then 0 else |disk| - 1;
    Memory(|es|, HashOf(c, es), LastOf(es), at, if disk == [] then 0 else |disk[at]|,
           RotationsOf(starts, |es|), Cursor(0, -1, 0), false)
  }

  lemma OpenedIsGood(c: Codec, disk: seq<Bytes>, es: seq<Entry>, starts: seq<int>)
    requires Faithful(c) && Image(c, disk, es, starts, [])
    ensures Good(c, disk, Opened(c, disk, es, starts), History(es, starts, es, starts, []))
  {}

  /** The line is that of entry `i`, and its end the place where the next one begins. */
  predicate IsEntry(c: Codec, h: History, p: int, i: int, offset: int, line: Bytes)
    requires 0 <= p < |h.starts| && 0 <= h.starts[p] <= i < |h.entries|
  {
    && line == Line(c, h.entries[i]) && c.parse(line[..|line| - 1]) == Some(h.entries[i])
    && offset + |line| == |Text(c, h.entries[h.starts[p]..i + 1])|
  }

  lemma LineText(c: Codec, e: Entry)
    ensures Text(c, [e]) == c.encode(e) + [NEWLINE] && Text(c, [e]) + [] == c.encode(e) + [NEWLINE]
  {
    assert [e][..0] == [];
  }

  /** The size of the current file is zero just when it holds no entry. */
  lemma SizeTells(c: Codec, disk: seq<Bytes>, es: seq<Entry>, starts: seq<int>, at: int, size: int)
    requires Image(c, disk, es, starts, [])
    requires (at == |disk| && size == 0) || (0 <= at == |disk| - 1 && size == |disk[at]|)
    ensures size == 0 <==> at == |starts| || starts[at] == |es|
  {
    if at < |disk| {
      assert FileIs(c, disk, es, starts, [], at);
      assert disk[at] == Text(c, Part(es, starts, at));
    }
  }

  lemma CursorStays(c: Codec, es: seq<Entry>, starts: seq<int>, at: nat, e: Entry, cursor: Cursor)
    requires |starts| - 1 <= at <= |starts| && Split(starts, |es|) && CursorFits(c, es, starts, cursor)
    ensures Split(Started(starts, at, |es|), |es + [e]|)
    ensures CursorFits(c, es + [e], Started(starts, at, |es|), cursor)
  {
    PartsGrow(es, starts, at, [e], at);
    if 0 <= cursor.path {
      var s := starts[cursor.path];
      assert (es + [e])[s..cursor.seqNo] == es[s..cursor.seqNo];
    }
  }

  // ------------------------------------------------------------------ across restarts

  /** What any later process reads from the disk: every entry that an append returned, and at most one that
      it did not; and nothing but them when no append broke. */
  lemma RestartKeeps(c: Codec, disk: seq<Bytes>, m: Memory, h: History, es: seq<Entry>, starts: seq<int>, t: Bytes)
    requires Good(c, disk, m, h) && Image(c, disk, es, starts, t)
    ensures h.entries <= es && |es| <= |h.entries| + 1
    ensures !m.failed ==> es == h.entries && t == []
  {
    ImageUnique(c, disk, es, starts, t, h.stored, h.begun, h.tail);
  }

  /** A log can be opened again exactly when its lines fit the reader's buffer, which appending does not ask. */
  lemma OpensAgain(c: Codec, disk: seq<Bytes>, m: Memory, h: History)
    requires Good(c, disk, m, h)
    ensures Readable(c, disk) <==> Fits(c, h.stored, h.tail)
  {
    if Readable(c, disk) {
      var es, starts, t :| Image(c, disk, es, starts, t) && Fits(c, es, t);
      ImageUnique(c, disk, es, starts, t, h.stored, h.begun, h.tail);
    }
  }

  /** One long line of any kind but a report, whose size is bounded, appended without complaint, and the log
      cannot be opened again. */
  lemma LongLineLocksOut(c: Codec, disk: seq<Bytes>, m: Memory, h: History, e: Entry)
    requires Good(c, disk, m, h) && !m.failed && e == Entry(m.seqNo + 1, e.time, e.kind, e.body, m.prev)
    requires e.kind != "" && e.kind != "scan_report" && |c.encode(e)| >= BUFFER
    ensures Validate(c, c.encode(e)) == Some(e)
    ensures !Readable(c, Written(disk, m.index, Line(c, e)))
  {
    ChainExtends(c, h.entries, e);
    CountedIsGood(c, disk, m, h, e);
    var h' := Grown(h, m.index, e);
    assert h'.stored[|h.entries|] == e;
    OpensAgain(c, Written(disk, m.index, Line(c, e)), Counted(m, e, c.encode(e)), h');
  }
}
