/** Receipts on their way from the ledger's outbox into the audit log: each once, in order, across
    crashes and lost acknowledgements. */
module Gateway {
  import opened AuditChain
  import opened AuditReader
  import opened AuditState
  import opened AuditLog

  const RECEIPT := "receipt"

  /** The entries of one kind, in order. */
  function Only(kind: string, es: seq<Entry>): (r: seq<Entry>)
    ensures |r| <= |es|
  {
    if es == [] then []
    else
      var n := |es| - 1;
      Only(kind, es[..n]) + if es[n].kind == kind then [es[n]] else []
  }

  lemma {:induction false} OnlyJoin(kind: string, a: seq<Entry>, b: seq<Entry>)
    ensures Only(kind, a + b) == Only(kind, a) + Only(kind, b)
  {
    if b == [] {
      assert a + b == a;
    } else {
      var n := |b| - 1;
      var front, more := b[..n], if b[n].kind == kind then [b[n]] else [];
      OnlyJoin(kind, a, front);
      assert (a + b)[..|a + b| - 1] == a + front;
      assert Only(kind, a + b) == Only(kind, a) + Only(kind, front) + more;
    }
  }

  lemma OnlyOne(kind: string, es: seq<Entry>, e: Entry)
    ensures Only(kind, es + [e]) == Only(kind, es) + if e.kind == kind then [e] else []
  {
    assert (es + [e])[..|es|] == es;
  }

  /** In a chain, the entries of a kind within the first `n` are those numbered up to `n`. */
  lemma {:induction false} OnlyUpTo(c: Codec, kind: string, es: seq<Entry>, n: int, r: int)
    requires Chain(c, es) && 0 <= n <= |es| && 1 <= r <= |Only(kind, es)|
    ensures Only(kind, es)[r - 1].seqNo <= n <==> r <= |Only(kind, es[..n])|
    decreases |es|
  {
    var m := |es| - 1;
    assert Linked(c, es, m);
    ChainPrefix(c, es, m);
    if n == |es| {
      assert es[..n] == es;
      if r <= |Only(kind, es[..m])| { OnlyUpTo(c, kind, es[..m], m, r); }
      assert es[..m][..m] == es[..m];
    } else {
      assert es[..m][..n] == es[..n];
      if r <= |Only(kind, es[..m])| {
        OnlyUpTo(c, kind, es[..m], n, r);
      } else {
        OnlyJoin(kind, es[..n], es[n..m]);
        assert es[..n] + es[n..m] == es[..m];
      }
    }
  }

  /** The receipts' entries are the first receipts of the outbox, each once and in order. */
  predicate Copied(outbox: seq<Bytes>, rs: seq<Entry>)
  {
    |rs| <= |outbox| && forall i :: 0 <= i < |rs| ==> rs[i].body == outbox[i]
  }

  /** The first `m` receipts are marked with the places of their entries. */
  ghost predicate Marked(audited: map<int, int>, rs: seq<Entry>, m: int)
  {
    && 0 <= m <= |rs|
    && (forall r :: r in audited <==> 1 <= r <= m)
    && (forall r :: r in audited ==> audited[r] == rs[r - 1].seqNo)
  }

  /** What the running process remembers of a mark that it could not make. */
  predicate Pending(rs: seq<Entry>, m: int, unmarkedReceipt: int, unmarkedAudit: int)
  {
    || (unmarkedReceipt == 0 && |rs| == m)
    || (0 <= m && unmarkedReceipt == m + 1 == |rs| && unmarkedAudit == rs[m].seqNo)
  }

  lemma OnlyPrefix(kind: string, a: seq<Entry>, b: seq<Entry>)
    requires a <= b
    ensures Only(kind, a) <= Only(kind, b)
  {
    OnlyJoin(kind, a, b[|a|..]);
    assert a + b[|a|..] == b;
  }

  /** The next receipt's entry may follow. */
  lemma CopiedNext(outbox: seq<Bytes>, audited: map<int, int>, rs: seq<Entry>, m: int, e: Entry)
    requires Copied(outbox, rs) && Marked(audited, rs, m) && |rs| == m < |outbox| && e.body == outbox[m]
    ensures Copied(outbox, rs + [e]) && Marked(audited, rs + [e], m) && Pending(rs + [e], m, m + 1, e.seqNo)
  {}

  lemma MarkedNext(audited: map<int, int>, stored: seq<Entry>, rs: seq<Entry>, m: int, r: int, at: int)
    requires Marked(audited, stored, m) && rs <= stored && Pending(rs, m, r, at) && r == m + 1
    ensures Marked(audited[r := at], stored, r) && Pending(rs, r, 0, at)
  {}

  /** Marking a receipt again, or the next one, from its entry. */
  lemma MarkedAgain(audited: map<int, int>, rs: seq<Entry>, m: int, r: int)
    requires Marked(audited, rs, m) && 1 <= r <= |rs| && r <= m + 1
    ensures Marked(audited[r := rs[r - 1].seqNo], rs, if m < r then r else m)
  {}

  lemma AllMoved(outbox: seq<Bytes>, stored: seq<Entry>, rs: seq<Entry>, m: int, r: int, at: int)
    requires Copied(outbox, stored) && rs <= stored && Pending(rs, m, r, at) && m == |outbox|
    ensures |rs| == |outbox| && Copied(outbox, rs)
  {}

  function First(es: seq<Entry>, n: nat): seq<Entry>
  {
    if n < |es| then es[..n] else es
  }

  function Receipts(es: seq<Entry>): seq<Entry>
  {
    Only(RECEIPT, es)
  }

  lemma Within(c: Codec, es: seq<Entry>, upTo: nat, r: int)
    requires Chain(c, es) && 1 <= r <= |Receipts(es)|
    ensures Receipts(es)[r - 1].seqNo <= upTo <==> r <= |Receipts(First(es, upTo))|
  {
    if upTo < |es| {
      OnlyUpTo(c, RECEIPT, es, upTo, r);
    } else {
      OnlyUpTo(c, RECEIPT, es, |es|, r);
      assert es[..|es|] == es;
    }
  }

  /** No receipt is in the log twice, and they are there in the order of their numbers. */
  lemma OnceEach(number: Bytes -> int, outbox: seq<Bytes>, es: seq<Entry>, p: nat, q: nat)
    requires Copied(outbox, Receipts(es)) && Numbered(number, outbox)
    requires p < q < |es| && es[p].kind == es[q].kind == RECEIPT
    ensures number(es[p].body) < number(es[q].body)
  {
    Nth(es, p);
    Nth(es, q);
    OnlyPrefix(RECEIPT, es[..p + 1], es[..q]);
    OnlyOne(RECEIPT, es[..p], es[p]);
    assert es[..p + 1] == es[..p] + [es[p]];
  }

  lemma Nth(es: seq<Entry>, p: nat)
    requires p < |es| && es[p].kind == RECEIPT
    ensures |Receipts(es[..p])| < |Receipts(es)| && Receipts(es)[|Receipts(es[..p])|] == es[p]
  {
    OnlyOne(RECEIPT, es[..p], es[p]);
    assert es[..p + 1] == es[..p] + [es[p]];
    OnlyPrefix(RECEIPT, es[..p + 1], es);
  }

  /** Acknowledged are exactly the receipts among the first `n` entries. */
  ghost predicate Acknowledged(sent: set<int>, es: seq<Entry>, n: nat)
  {
    forall r :: r in sent <==> 1 <= r <= |Receipts(First(es, n))|
  }

  /** Entry `k`, when a receipt, carries the number of receipts up to it. */
  lemma CountedBy(number: Bytes -> int, outbox: seq<Bytes>, es: seq<Entry>, k: nat)
    requires Copied(outbox, Receipts(es)) && Numbered(number, outbox) && 1 <= k <= |es|
    ensures |Receipts(First(es, k))| == |Receipts(First(es, k - 1))| + if es[k - 1].kind == RECEIPT then 1 else 0
    ensures es[k - 1].kind == RECEIPT ==> number(es[k - 1].body) == |Receipts(First(es, k))|
  {
    OnlyOne(RECEIPT, es[..k - 1], es[k - 1]);
    assert es[..k] == es[..k - 1] + [es[k - 1]] && First(es, k) == es[..k] && First(es, k - 1) == es[..k - 1];
    if es[k - 1].kind == RECEIPT { Nth(es, k - 1); }
  }

  lemma CopiedPrefix(outbox: seq<Bytes>, rs: seq<Entry>, stored: seq<Entry>)
    requires Copied(outbox, stored) && rs <= stored
    ensures Copied(outbox, rs)
  {}

  predicate Numbered(number: Bytes -> int, outbox: seq<Bytes>)
  {
    forall i :: 0 <= i < |outbox| ==> number(outbox[i]) == i + 1
  }

  class Gateway {
    const log: Log
    const number: Bytes -> int
    var outbox: seq<Bytes>
    var audited: map<int, int>
    var sent: set<int>
    var unmarkedReceipt: int
    var unmarkedAudit: int
    var running: bool
    ghost var marked: int

    ghost predicate Valid()
      reads this, log
    {
      && log.Valid() && Numbered(number, outbox)
      && Copied(outbox, Receipts(log.truth.stored)) && Marked(audited, Receipts(log.truth.stored), marked)
      && (running ==> Pending(Receipts(log.Entries()), marked, unmarkedReceipt, unmarkedAudit))
    }

    constructor (log: Log, number: Bytes -> int)
      requires log.Valid() && Only(RECEIPT, log.truth.stored) == []
      ensures Valid() && this.log == log && this.number == number && outbox == [] && !running
    {
      this.log, this.number := log, number;
      outbox, audited, sent, unmarkedReceipt, unmarkedAudit, running, marked := [], map[], {}, 0, 0, false, 0;
    }

    /** A transfer ends: the ledger queues its receipt under the next number. */
    method Queue(body: Bytes)
      requires Valid() && number(body) == |outbox| + 1
      modifies `outbox
      ensures Valid() && outbox == old(outbox) + [body]
    {
      outbox := outbox + [body];
    }

    /** Any other message goes to the log. */
    method Other(time: string, kind: string, body: Bytes, fate: Fate) returns (ok: bool)
      requires Valid() && running && kind != RECEIPT
      modifies log
      ensures Valid() && old(log.Entries()) <= log.Entries()
      ensures Only(RECEIPT, log.Entries()) == old(Only(RECEIPT, log.Entries()))
    {
      var entry;
      OnlyOne(RECEIPT, log.Entries(), log.Next(time, kind, body));
      ok, entry := log.Append(time, kind, body, fate);
    }

    /** Marks the receipt that the log already holds; the mark may fail. */
    method Mark(works: bool) returns (ok: bool)
      requires Valid() && running && unmarkedReceipt == marked + 1
      modifies `audited, `unmarkedReceipt, `marked
      ensures Valid() && ok == works && marked == if ok then old(marked) + 1 else old(marked)
    {
      ok := works;
      if ok {
        OnlyPrefix(RECEIPT, log.Entries(), log.truth.stored);
        ghost var stored, rs := Receipts(log.truth.stored), Receipts(log.Entries());
        MarkedNext(audited, stored, rs, marked, unmarkedReceipt, unmarkedAudit);
        audited := audited[unmarkedReceipt := unmarkedAudit];
        marked := unmarkedReceipt;
        unmarkedReceipt := 0;
      }
    }

    /** Writes the next receipt to the log. */
    method Copy(r: int, time: string, fate: Fate) returns (ok: bool)
      requires Valid() && running && r == marked + 1 <= |outbox| && unmarkedReceipt == 0
      modifies log, `unmarkedReceipt, `unmarkedAudit
      ensures Valid() && old(log.Entries()) <= log.Entries()
      ensures ok <==> unmarkedReceipt == r
      ensures ok <==> !old(log.failed) && fate.Lands?
      ensures ok ==> !log.failed
    {
      var entry;
      OnlyOne(RECEIPT, log.Entries(), log.Next(time, RECEIPT, outbox[r - 1]));
      if !log.failed {
        CopiedNext(outbox, audited, Receipts(log.Entries()), marked, log.Next(time, RECEIPT, outbox[r - 1]));
      }
      ok, entry := log.Append(time, RECEIPT, outbox[r - 1], fate);
      if ok { unmarkedReceipt, unmarkedAudit := r, entry.seqNo; }
    }

    /** Moves the next receipt into the log and marks it, unless it is there and only the mark is missing. */
    method PollOne(r: int, time: string, fate: Fate, works: bool) returns (ok: bool)
      requires Valid() && running && r == marked + 1 <= |outbox|
      modifies log, `audited, `unmarkedReceipt, `unmarkedAudit, `marked
      ensures Valid() && old(log.Entries()) <= log.Entries()
      ensures marked == if ok then r else old(marked)
      ensures !old(log.failed) && fate.Lands? && works ==> ok && !log.failed
    {
      if unmarkedReceipt != r {
        if number(outbox[r - 1]) != r { return false; }
        ok := Copy(r, time, fate);
        if !ok { return; }
      }
      ok := Mark(works);
    }

    /** The highest marked receipt. */
    method Top() returns (m: int)
      requires Valid()
      ensures m == marked
    {
      m := |outbox|;
      while m > 0 && m !in audited
        invariant marked <= m
      {
        m := m - 1;
      }
    }

    /** Moves every receipt behind the highest marked one into the log, until something fails. */
    method Poll(times: int -> string, fates: int -> Fate, works: int -> bool) returns (ok: bool)
      requires Valid() && running
      modifies log, `audited, `unmarkedReceipt, `unmarkedAudit, `marked
      ensures Valid() && old(log.Entries()) <= log.Entries()
      ensures ok ==> marked == |outbox| == |Receipts(log.Entries())| && Copied(outbox, Receipts(log.Entries()))
      ensures !old(log.failed) && (forall r :: fates(r).Lands? && works(r)) ==> ok
    {
      var r := Top();
      while r < |outbox|
        invariant Valid() && running && r == marked && old(log.Entries()) <= log.Entries()
        invariant !old(log.failed) && (forall r :: fates(r).Lands? && works(r)) ==> !log.failed
      {
        r := r + 1;
        ok := PollOne(r, times(r), fates(r), works(r));
        if !ok { return; }
      }
      ok := true;
      OnlyPrefix(RECEIPT, log.Entries(), log.truth.stored);
      AllMoved(outbox, Receipts(log.truth.stored), Receipts(log.Entries()), marked, unmarkedReceipt, unmarkedAudit);
    }

    /** Which receipts count as sent once the market has acknowledged the log up to entry `seq`: exactly
        the marked ones whose entries are within it. */
    method Reconcile(upTo: nat)
      requires Valid()
      modifies `sent
      ensures Valid()
      ensures forall r :: r in sent <==> 1 <= r <= marked && r <= |Receipts(First(log.truth.stored, upTo))|
    {
      sent := set r | r in audited && audited[r] <= upTo;
      forall r | r in audited
        ensures audited[r] <= upTo <==> r <= |Receipts(First(log.truth.stored, upTo))|
      {
        Within(log.codec, log.truth.stored, upTo, r);
      }
    }

    /** The market acknowledges entry `k`: its receipt, if it is one, counts as sent.  Entry by entry this
        reaches what reconciling at the last of them would. */
    method Deliver(k: int) returns (ok: bool)
      requires Valid() && running
      modifies log, `sent
      ensures Valid() && log.Entries() == old(log.Entries())
      ensures ok <==> 1 <= k <= |log.Entries()|
      ensures !ok ==> sent == old(sent)
      ensures ok ==> sent == old(sent) + if log.Entries()[k - 1].kind == RECEIPT
                                         then {|Receipts(First(log.Entries(), k))|} else {}
      ensures ok && Acknowledged(old(sent), log.Entries(), k - 1) ==> Acknowledged(sent, log.Entries(), k)
    {
      OnlyPrefix(RECEIPT, log.Entries(), log.truth.stored);
      CopiedPrefix(outbox, Receipts(log.Entries()), Receipts(log.truth.stored));
      var entry;
      ok, entry := log.Read(k);
      if ok {
        CountedBy(number, outbox, log.Entries(), k);
        if entry.value.kind == RECEIPT { sent := sent + {number(entry.value.body)}; }
      }
    }

    /** A new process opens the log and marks every receipt it finds there; a mark may fail, and then it stops. */
    method Open(works: int -> bool)
      requires Valid()
      modifies this, log
      ensures Valid() && outbox == old(outbox)
      ensures running ==> !log.failed && log.Entries() == old(log.truth.stored)
      ensures running ==> marked == |Receipts(log.Entries())| && unmarkedReceipt == 0
      ensures !running ==> log.truth.stored == old(log.truth.stored)
      ensures Readable(log.codec, old(log.disk)) && (forall i :: works(i)) ==> running
    {
      ghost var stored, begun, tail, disk := log.truth.stored, log.truth.begun, log.truth.tail, log.disk;
      running := false;
      ghost var t;
      var ok;
      ok, t := log.Open();
      if !ok { return; }
      ImageUnique(log.codec, disk, log.Entries(), log.truth.starts, t, stored, begun, tail);
      var visited;
      ok, visited := log.Walk();
      ok := MarkAll(visited, works);
      unmarkedReceipt, running := 0, ok;
    }

    method MarkEntry(visited: seq<Entry>, i: nat)
      requires Valid() && !running && visited == log.truth.stored && i < |visited|
      requires |Receipts(visited[..i])| <= marked
      modifies `audited, `marked
      ensures Valid() && |Receipts(visited[..i + 1])| <= marked
    {
      var e := visited[i];
      OnlyOne(RECEIPT, visited[..i], e);
      assert visited[..i + 1] == visited[..i] + [e];
      if e.kind == RECEIPT {
        OnlyPrefix(RECEIPT, visited[..i + 1], visited);
        var r := number(e.body);
        MarkedAgain(audited, Receipts(visited), marked, |Receipts(visited[..i])| + 1);
        audited := audited[r := e.seqNo];
        marked := if marked < r then r else marked;
      }
    }

    method MarkAll(visited: seq<Entry>, works: int -> bool) returns (ok: bool)
      requires Valid() && !running && visited == log.truth.stored
      modifies `audited, `marked
      ensures Valid() && (ok ==> marked == |Receipts(visited)|)
      ensures (forall i :: works(i)) ==> ok
    {
      var i := 0;
      while i < |visited|
        invariant i <= |visited| && Valid() && |Receipts(visited[..i])| <= marked
      {
        if visited[i].kind == RECEIPT && !works(i) { return false; }
        MarkEntry(visited, i);
        i := i + 1;
      }
      assert visited[..i] == visited;
      ok := true;
    }
  }
}
