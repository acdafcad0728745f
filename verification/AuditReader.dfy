/** Reading the audit log's files line by line, and what a file can be read as. */
module AuditReader {
  import opened AuditChain

  /** The next line of a file: found whole, cut off by the end of the file, or too long to read. */
  datatype Found = Whole | Cut | TooLong

  /** `line` is what a reader with a buffer of `limit` bytes finds at `offset`. */
  ghost predicate IsNext(file: Bytes, offset: int, limit: int, line: Bytes, found: Found)
  {
    && 0 <= offset && offset + |line| <= |file| && line == file[offset..offset + |line|]
    && (found == Whole ==> 0 < |line| <= limit && line[|line| - 1] == NEWLINE && NEWLINE !in line[..|line| - 1])
    && (found == Cut ==> |line| < limit && offset + |line| == |file| && NEWLINE !in line)
    && (found == TooLong ==> |line| == limit && NEWLINE !in line)
  }

  method NextLineOf(file: Bytes, offset: nat, limit: int) returns (line: Bytes, found: Found)
    requires offset <= |file| && 0 < limit
    ensures IsNext(file, offset, limit, line, found)
  {
    var i := 0;
    while offset + i < |file| && i < limit
      invariant offset + i <= |file| && i <= limit && NEWLINE !in file[offset..offset + i]
    {
      if file[offset + i] == NEWLINE {
        line, found := file[offset..offset + i + 1], Whole;
        assert line[..i] == file[offset..offset + i];
        return;
      }
      i := i + 1;
    }
    line, found := file[offset..offset + i], if i == limit then TooLong else Cut;
  }

  /** Where the file goes on with an entry's line, that line is what is read. */
  lemma LineIsRead(file: Bytes, offset: nat, e: Bytes, rest: Bytes, line: Bytes, found: Found, limit: int)
    requires offset <= |file| && file[offset..] == e + [NEWLINE] + rest && NEWLINE !in e && |e| < limit
    requires IsNext(file, offset, limit, line, found)
    ensures found == Whole && line == e + [NEWLINE]
  {
    var more := e + [NEWLINE] + rest;
    assert more[|e|] == NEWLINE && more[..|e|] == e;
    assert forall i :: 0 <= i < |line| ==> line[i] == more[i];
    assert |line| > |e| ==> line[|e|] in line;
    assert forall i :: 0 <= i < |e| ==> more[i] in e;
    assert found == Whole ==> forall i :: 0 <= i < |line| - 1 ==> line[i] in line[..|line| - 1];
  }

  lemma FirstNewline(e: Bytes, rest: Bytes, e': Bytes, rest': Bytes)
    requires NEWLINE !in e && NEWLINE !in e' && e + [NEWLINE] + rest == e' + [NEWLINE] + rest'
    ensures e == e' && rest == rest'
  {
    var x, y := e + [NEWLINE] + rest, e' + [NEWLINE] + rest';
    assert x[|e|] == NEWLINE && y[|e'|] == NEWLINE && x[..|e|] == e && y[..|e'|] == e';
    assert forall i :: 0 <= i < |e| ==> x[i] in e;
    assert forall i :: 0 <= i < |e'| ==> y[i] in e';
    assert |e| == |e'|;
    assert x[|e| + 1..] == rest && y[|e'| + 1..] == rest';
  }

  lemma HeadLine(c: Codec, a: seq<Entry>, s: Bytes)
    requires a != []
    ensures Text(c, a) + s == c.encode(a[0]) + [NEWLINE] + (Text(c, a[1..]) + s)
  {
    NextLine(c, a, 0);
    assert a[..0] == [];
  }

  /** A text whose rest has no newline holds every list of lines that it starts with. */
  lemma {:induction false} TextPrefix(c: Codec, a: seq<Entry>, s: Bytes, b: seq<Entry>, t: Bytes)
    requires Faithful(c) && NEWLINE !in t && Text(c, a) + s == Text(c, b) + t
    ensures a <= b && s == Text(c, b[|a|..]) + t
  {
    if a == [] {
      assert Text(c, a) + s == s;
    } else {
      HeadLine(c, a, s);
      var e, ra := c.encode(a[0]), Text(c, a[1..]) + s;
      assert (e + [NEWLINE] + ra)[|e|] in Text(c, b) + t;
      assert b == [] ==> Text(c, b) + t == t;
      HeadLine(c, b, t);
      FirstNewline(e, ra, c.encode(b[0]), Text(c, b[1..]) + t);
      assert c.parse(e) == Some(a[0]) && c.parse(c.encode(b[0])) == Some(b[0]);
      TextPrefix(c, a[1..], s, b[1..], t);
      assert a == [a[0]] + a[1..] && b == [b[0]] + b[1..] && b[1..][|a[1..]|..] == b[|a|..];
    }
  }

  /** Lines split one way only. */
  lemma TextUnique(c: Codec, a: seq<Entry>, s: Bytes, b: seq<Entry>, t: Bytes)
    requires Faithful(c) && NEWLINE !in s && NEWLINE !in t && Text(c, a) + s == Text(c, b) + t
    ensures a == b && s == t
  {
    TextPrefix(c, a, s, b, t);
    TextPrefix(c, b, t, a, s);
    assert b[|a|..] == [] && Text(c, []) == [];
  }

  /** A file tells its entries. */
  lemma PartsAgree(c: Codec, disk: seq<Bytes>, es: seq<Entry>, starts: seq<int>, t: Bytes,
                   es': seq<Entry>, starts': seq<int>, t': Bytes, f: nat)
    requires Faithful(c) && Image(c, disk, es, starts, t) && Image(c, disk, es', starts', t') && f < |disk|
    ensures Part(es, starts, f) == Part(es', starts', f) && TailOf(|disk|, f, t) == TailOf(|disk|, f, t')
  {
    assert FileIs(c, disk, es, starts, t, f) && FileIs(c, disk, es', starts', t', f);
    TextUnique(c, Part(es, starts, f), TailOf(|disk|, f, t), Part(es', starts', f), TailOf(|disk|, f, t'));
  }

  lemma {:induction false} FilesAgree(c: Codec, disk: seq<Bytes>, es: seq<Entry>, starts: seq<int>, t: Bytes,
                                      es': seq<Entry>, starts': seq<int>, t': Bytes, f: nat)
    requires Faithful(c) && Image(c, disk, es, starts, t) && Image(c, disk, es', starts', t') && f < |disk|
    ensures starts[f] == starts'[f] && es[..starts[f]] == es'[..starts[f]]
  {
    if f > 0 {
      FilesAgree(c, disk, es, starts, t, es', starts', t', f - 1);
      PartsAgree(c, disk, es, starts, t, es', starts', t', f - 1);
    }
  }

  /** A disk tells its entries, where its files begin and its tail. */
  lemma ImageUnique(c: Codec, disk: seq<Bytes>, es: seq<Entry>, starts: seq<int>, t: Bytes,
                    es': seq<Entry>, starts': seq<int>, t': Bytes)
    requires Faithful(c) && Image(c, disk, es, starts, t) && Image(c, disk, es', starts', t')
    ensures es == es' && starts == starts' && t == t'
  {
    if disk != [] {
      forall f | 0 <= f < |disk| ensures starts[f] == starts'[f] {
        FilesAgree(c, disk, es, starts, t, es', starts', t', f);
      }
      var f := |disk| - 1;
      FilesAgree(c, disk, es, starts, t, es', starts', t', f);
      PartsAgree(c, disk, es, starts, t, es', starts', t', f);
      assert es[..|es|] == es && es'[..|es'|] == es';
    }
  }

  // ------------------------------------------------------------------ what opening reads

  /** A file, coming after entries `before`, reads as these entries and this unfinished line. */
  ghost predicate Reads(c: Codec, file: Bytes, final: bool, before: seq<Entry>, es: seq<Entry>, t: Bytes)
  {
    && file == Text(c, es) + t && NEWLINE !in t && |t| < BUFFER && (final || t == [])
    && Chain(c, before + es)
    && (forall e :: e in es ==> |c.encode(e)| < BUFFER)
  }

  function LastOf(es: seq<Entry>): Option<Entry>
  {
    if es == [] then None else Some(es[|es| - 1])
  }

  /** Entries `es` have been read from the front of the file, and the reader knows where they end. */
  ghost predicate SoFar(c: Codec, file: Bytes, before: seq<Entry>, es: seq<Entry>,
                        seqNo: int, prev: Hash, last: Option<Entry>, offset: int)
  {
    && 0 <= offset <= |file| && file[..offset] == Text(c, es)
    && Chain(c, before + es) && (forall e :: e in es ==> |c.encode(e)| < BUFFER)
    && seqNo == |before + es| && prev == HashOf(c, before + es) && last == LastOf(before + es)
  }

  /** The line found may follow the entries read so far. */
  ghost predicate Follows(c: Codec, final: bool, seqNo: int, prev: Hash, line: Bytes, found: Found)
  {
    || (found == Cut && (final || line == []))
    || (found == Whole && line != [] && Validate(c, line[..|line| - 1]).Some?
        && Validate(c, line[..|line| - 1]).value.seqNo == seqNo + 1
        && Validate(c, line[..|line| - 1]).value.prev == prev)
  }

  /** After the lines read so far, what comes next in a readable file is its next entry or its tail. */
  lemma NextOfReadable(c: Codec, file: Bytes, final: bool, before: seq<Entry>, es: seq<Entry>, offset: nat,
                       line: Bytes, found: Found, g: seq<Entry>, t: Bytes)
    requires Faithful(c) && Reads(c, file, final, before, g, t)
    requires offset <= |file| && file[..offset] == Text(c, es) && IsNext(file, offset, BUFFER, line, found)
    ensures found == Whole ==> line != []
    ensures Follows(c, final, |before + es|, HashOf(c, before + es), line, found)
  {
    assert file == Text(c, es) + file[offset..];
    TextPrefix(c, es, file[offset..], g, t);
    if es == g {
      assert g[|es|..] == [] && Text(c, []) + t == t;
    } else {
      var rest, e := g[|es|..], g[|es|];
      HeadLine(c, rest, t);
      assert e in g;
      LineIsRead(file, offset, c.encode(e), Text(c, rest[1..]) + t, line, found, BUFFER);
      var i := |before| + |es|;
      assert Linked(c, before + g, i);
      assert (before + g)[i] == e && (before + g)[..i] == before + es;
    }
  }

  lemma NothingReads(c: Codec, file: Bytes, final: bool, before: seq<Entry>, es: seq<Entry>,
                     seqNo: int, prev: Hash, last: Option<Entry>, offset: nat, line: Bytes, found: Found)
    requires Faithful(c) && SoFar(c, file, before, es, seqNo, prev, last, offset)
    requires IsNext(file, offset, BUFFER, line, found) && !Follows(c, final, seqNo, prev, line, found)
    ensures forall g, t :: !Reads(c, file, final, before, g, t)
  {
    forall g, t | Reads(c, file, final, before, g, t) ensures false {
      NextOfReadable(c, file, final, before, es, offset, line, found, g, t);
    }
  }

  /** One more line has been read. */
  lemma Took(c: Codec, file: Bytes, before: seq<Entry>, es: seq<Entry>,
             seqNo: int, prev: Hash, last: Option<Entry>, offset: int, line: Bytes, e: Entry)
    requires SoFar(c, file, before, es, seqNo, prev, last, offset) && IsNext(file, offset, BUFFER, line, Whole)
    requires c.encode(e) == line[..|line| - 1] && Acceptable(c, e) && e.seqNo == seqNo + 1 && e.prev == prev
    ensures SoFar(c, file, before, es + [e], seqNo + 1, Digest(line[..|line| - 1]), Some(e), offset + |line|)
  {
    ChainExtends(c, before + es, e);
    assert before + (es + [e]) == before + es + [e];
    assert line == Line(c, e);
    assert (es + [e])[..|es|] == es;
    assert file[..offset + |line|] == file[..offset] + line;
  }

  /** Reads one file of the log, line by line, as opening does. */
  method ReadFile(c: Codec, file: Bytes, final: bool, seqNo0: int, prev0: Hash, last0: Option<Entry>, ghost before: seq<Entry>)
    returns (ok: bool, seqNo: int, prev: Hash, last: Option<Entry>, offset: nat, fragment: Bytes, ghost es: seq<Entry>)
    requires Faithful(c) && SoFar(c, file, before, [], seqNo0, prev0, last0, 0)
    ensures ok ==> Reads(c, file, final, before, es, fragment)
    ensures ok ==> SoFar(c, file, before, es, seqNo, prev, last, offset)
    ensures !ok ==> forall g, t :: !Reads(c, file, final, before, g, t)
  {
    seqNo, prev, last, offset, fragment, es := seqNo0, prev0, last0, 0, [], [];
    while true
      invariant SoFar(c, file, before, es, seqNo, prev, last, offset)
      decreases |file| - offset
    {
      var line, found := NextLineOf(file, offset, BUFFER);
      if found == Cut && (final || line == []) {
        return true, seqNo, prev, last, offset, line, es;
      }
      var checked := if found == Whole then Validate(c, line[..|line| - 1]) else None;
      if checked.None? || checked.value.seqNo != seqNo + 1 || checked.value.prev != prev {
        NothingReads(c, file, final, before, es, seqNo, prev, last, offset, line, found);
        return false, seqNo, prev, last, offset, [], es;
      }
      Took(c, file, before, es, seqNo, prev, last, offset, line, checked.value);
      es := es + [checked.value];
      seqNo, prev, last, offset := seqNo + 1, Digest(line[..|line| - 1]), checked, offset + |line|;
    }
  }
}
