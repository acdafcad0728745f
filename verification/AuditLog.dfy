/** The audit log object over its files: appending with rotation, opening after a crash, and reading
    through the rotation index and the cursor. */
module AuditLog {
  import opened AuditChain
  import opened AuditReader
  import opened AuditState

  /** Where an append ends: written, synced; without a file; or with `kept` bytes of the line in it. */
  datatype Fate = Lands | NoFile | Breaks(kept: nat)

  const KINDS: set<string> := {"inventory", "description", "receipt", "canary_result", "revocation_ack",
                               "offer_ack", "prepare_ack", "error", "scan_report"}

  class Log {
    const codec: Codec
    var disk: seq<Bytes>
    var fragments: seq<Bytes>
    var seqNo: int
    var prev: Hash
    var last: Option<Entry>
    var index: nat
    var size: nat
    var rotations: seq<Rotation>
    var cursor: Cursor
    var failed: bool

    ghost var truth: History

    function View(): Memory
      reads this
    {
      Memory(seqNo, prev, last, index, size, rotations, cursor, failed)
    }

    ghost predicate Valid()
      reads this
    {
      Good(codec, disk, View(), truth)
    }

    /** A directory without files. */
    constructor (codec: Codec)
      requires Faithful(codec)
      ensures Valid() && this.codec == codec && !failed && Entries() == [] && fragments == []
    {
      this.codec := codec;
      disk, fragments, seqNo, prev, last, index, size, rotations := [], [], 0, Genesis, None, 0, 0, [];
      cursor, failed, truth := Cursor(0, -1, 0), false, History([], [], [], [], []);
    }

    ghost function Entries(): seq<Entry>
      reads this
    {
      truth.entries
    }

    /** A new process reads everything back, keeps an unfinished line aside and cuts it off. */
    method Open() returns (ok: bool, ghost t: Bytes)
      requires Faithful(codec)
      modifies this
      ensures ok <==> Readable(codec, old(disk))
      ensures !ok ==> unchanged(this)
      ensures ok ==> Valid() && !failed && Image(codec, old(disk), Entries(), truth.starts, t) && Fits(codec, Entries(), t)
      ensures ok && old(Valid()) ==> old(Entries()) <= Entries() && |Entries()| <= |old(Entries())| + 1
      ensures ok ==> fragments == if t == [] then old(fragments) else old(fragments) + [t]
    {
      var n, p, e, rs, fragment;
      ghost var es, starts;
      ok, n, p, e, rs, fragment, es, starts := ReadFiles(codec, disk);
      t := fragment;
      if !ok { return; }
      if Valid() { RestartKeeps(codec, disk, View(), truth, es, starts, fragment); }
      TruncatedIsWhole(codec, disk, es, starts, fragment);
      Preserve(fragment);
      Remember(n, p, e, rs, es, starts);
    }

    method Remember(n: int, p: Hash, e: Option<Entry>, rs: seq<Rotation>, ghost es: seq<Entry>, ghost starts: seq<int>)
      requires Faithful(codec) && Image(codec, disk, es, starts, [])
      requires n == |es| && p == HashOf(codec, es) && e == LastOf(es) && rs == RotationsOf(starts, |es|)
      modifies `seqNo, `prev, `last, `rotations, `index, `size, `cursor, `failed, `truth
      ensures Valid() && !failed && Entries() == es && truth.starts == starts
    {
      seqNo, prev, last, rotations := n, p, e, rs;
      index := if disk == [] then 0 else |disk| - 1;
      size := if disk == [] then 0 else |disk[index]|;
      cursor, failed := Cursor(0, -1, 0), false;
      truth := History(es, starts, es, starts, []);
      OpenedIsGood(codec, disk, es, starts);
      assert View() == Opened(codec, disk, es, starts);
    }

    /** An unfinished line is kept in a file of its own before it is cut off. */
    method Preserve(fragment: Bytes)
      modifies `fragments, `disk
      ensures disk == if fragment == [] then old(disk) else Truncated(old(disk), fragment)
      ensures fragments == if fragment == [] then old(fragments) else old(fragments) + [fragment]
    {
      if fragment != [] {
        fragments := fragments + [fragment];
        disk := Truncated(disk, fragment);
      }
    }

    /** Moves to a new file when the line would make this one too long. */
    method Turn(length: nat)
      requires Valid() && !failed
      modifies `index, `size
      ensures Valid()
      ensures size == 0 || size + length + 1 <= ROTATION
    {
      if size + length + 1 > ROTATION && size > 0 {
        index, size := index + 1, 0;
      }
    }

    /** The line is on disk: the object counts it. */
    method Count(entry: Entry, line: Bytes)
      requires Valid() && !failed && line == codec.encode(entry) && Chain(codec, Entries() + [entry])
      modifies `disk, `rotations, `size, `seqNo, `prev, `last, `truth
      ensures Valid() && !failed && Entries() == old(Entries()) + [entry]
    {
      ghost var m, d, h := View(), disk, truth;
      CountedIsGood(codec, d, m, h, entry);
      disk := Written(disk, index, line + [NEWLINE]);
      if size == 0 { rotations := rotations + [Rotation(seqNo + 1, index)]; }
      size := size + |line| + 1;
      seqNo := seqNo + 1;
      prev := Digest(line);
      last := Some(entry);
      truth := Grown(h, m.index, entry);
      assert View() == Counted(m, entry, line);
      assert disk == Written(d, m.index, Line(codec, entry));
    }

    /** Only some of the line's bytes are on disk, or all of them unacknowledged: the object stops. */
    method Tear(entry: Entry, line: Bytes, kept: nat)
      requires Valid() && !failed && line == codec.encode(entry) && Chain(codec, Entries() + [entry])
      modifies `disk, `failed, `truth
      ensures Valid() && failed && Entries() == old(Entries())
      ensures truth.stored == old(truth.stored) || truth.stored == old(Entries()) + [entry]
    {
      ghost var m, d, h := View(), disk, truth;
      TornIsGood(codec, d, m, h, entry, kept);
      disk := Written(disk, index, UpTo(line + [NEWLINE], kept));
      failed := true;
      truth := Torn(h, index, entry, kept > |line|, UpTo(line, kept));
      assert View() == m.(failed := true);
    }

    /** The last rotation that starts at or before entry `k`. */
    method Search(k: int) returns (n: int)
      requires Valid() && 1 <= k <= seqNo
      ensures 0 <= n < |rotations| && rotations[n].first <= k && (n + 1 < |rotations| ==> k < rotations[n + 1].first)
    {
      RotationsRise(truth.starts, |Entries()|);
      var lo, hi := 0, |rotations|;
      while lo < hi
        invariant 0 <= lo <= hi <= |rotations|
        invariant lo > 0 ==> rotations[lo - 1].first <= k
        invariant hi < |rotations| ==> rotations[hi].first > k
      {
        var mid := (lo + hi) / 2;
        if rotations[mid].first > k { hi := mid; } else { lo := mid + 1; }
      }
      n := lo - 1;
    }

    /** Reads the line of entry `i` (counted from zero) of file `p`, which begins at `offset`. */
    method ReadLine(p: int, i: int, offset: int) returns (line: Bytes)
      requires Valid() && 0 <= p < |truth.starts| && truth.starts[p] <= i < End(truth.starts, |Entries()|, p)
      requires offset == |Text(codec, Entries()[truth.starts[p]..i])|
      ensures IsEntry(codec, truth, p, i, offset, line)
    {
      StaysInFile(codec, disk, View(), truth, p, i, offset);
      var found;
      line, found := NextLineOf(disk[p], offset, |disk[p]| + 1);
      NextOnDisk(codec, disk, View(), truth, p, i, offset, line, found);
    }

    /** Reads lines of file `p` from entry `from` to entry `k`. */
    method Scan(p: int, from: int, k: int, from_offset: int) returns (line: Bytes, offset: int)
      requires Valid() && 0 <= p < |truth.starts| && truth.starts[p] < from <= k <= End(truth.starts, |Entries()|, p)
      requires from_offset == |Text(codec, Entries()[truth.starts[p]..from - 1])|
      ensures line == Line(codec, Entries()[k - 1]) && codec.parse(line[..|line| - 1]) == Some(Entries()[k - 1])
      ensures offset == |Text(codec, Entries()[truth.starts[p]..k])|
    {
      var current := from;
      offset := from_offset;
      while true
        invariant from <= current <= k && offset == |Text(codec, Entries()[truth.starts[p]..current - 1])|
        decreases k - current
      {
        line := ReadLine(p, current - 1, offset);
        offset := offset + |line|;
        if current == k { return; }
        current := current + 1;
      }
    }

    /** The file that holds entry `k`, and where in it to begin: at its front or just after the entry read last. */
    method Locate(k: int) returns (path: int, start: int, offset: int)
      requires Valid() && 1 <= k <= seqNo
      ensures 0 <= path < |truth.starts| && truth.starts[path] < start <= k <= End(truth.starts, |Entries()|, path)
      ensures offset == |Text(codec, Entries()[truth.starts[path]..start - 1])|
    {
      var n := Search(k);
      RotationHolds(truth.starts, |Entries()|, n, k);
      var r := rotations[n];
      if cursor.seqNo + 1 == k && cursor.path == r.path { return r.path, k, cursor.offset; }
      path, start, offset := r.path, r.first, 0;
      assert Entries()[truth.starts[path]..start - 1] == [];
    }

    /** Entry `k`. */
    method Read(k: int) returns (ok: bool, entry: Option<Entry>)
      requires Valid()
      modifies `cursor
      ensures Valid()
      ensures ok <==> 1 <= k <= seqNo
      ensures ok ==> entry == Some(Entries()[k - 1])
    {
      if k <= 0 || k > seqNo { return false, None; }
      if k == seqNo { return true, last; }
      var path, start, offset := Locate(k);
      var line;
      line, offset := Scan(path, start, k, offset);
      ok, entry := true, codec.parse(line[..|line| - 1]);
      ghost var m := View();
      cursor := Cursor(k, path, offset);
      assert View() == m.(cursor := cursor);
    }

    /** Visits every entry of every file, in order. */
    method Walk() returns (ok: bool, visited: seq<Entry>)
      requires Valid()
      ensures !failed ==> (ok <==> Short(codec, Entries())) && (ok ==> visited == Entries())
    {
      ok, visited := true, [];
      var f := 0;
      while f < |disk|
        invariant f <= |disk| && ok
        invariant !failed ==> visited == Entries()[..Begin(truth, f)] && Short(codec, visited)
      {
        ghost var part := if failed then [] else Part(Entries(), truth.starts, f);
        var es;
        if !failed { PartText(codec, disk, View(), truth, f); }
        ok, es := WalkFile(codec, disk[f], part);
        if !ok { return; }
        visited := visited + es;
        f := f + 1;
      }
    }

    /** The entry that the next append writes. */
    function Next(time: string, kind: string, body: Bytes): Entry
      reads this
    {
      Entry(seqNo + 1, time, kind, body, prev)
    }

    method Append(time: string, kind: string, body: Bytes, fate: Fate) returns (ok: bool, entry: Entry)
      requires Valid()
      modifies this
      ensures Valid()
      ensures entry == old(Next(time, kind, body))
      ensures ok <==> !old(failed) && kind in KINDS && Acceptable(codec, entry) && fate.Lands?
      ensures Entries() == if ok then old(Entries()) + [entry] else old(Entries())
      ensures ok ==> !failed
      ensures failed ==> old(failed) || fate.Breaks?
      ensures !ok && !failed ==> disk == old(disk)
      ensures !ok ==> truth.stored == old(truth.stored) || (!old(failed) && truth.stored == old(Entries()) + [entry])
      ensures fragments == old(fragments)
    {
      entry := Next(time, kind, body);
      var line := codec.encode(entry);
      ok := false;
      if failed || kind !in KINDS { return; }
      if Validate(codec, line).None? { return; }
      assert Acceptable(codec, entry) && Chain(codec, Entries() + [entry]) by {
        assert codec.parse(line) == Some(entry);
        ChainExtends(codec, Entries(), entry);
      }
      Turn(|line|);
      match fate
      case NoFile =>
      case Breaks(kept) => Tear(entry, line, kept);
      case Lands =>
        Count(entry, line);
        ok := true;
    }
  }
}
