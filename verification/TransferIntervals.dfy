/** How many intervals a file really gets: one more than the limit, for every file that has room for them. */
module TransferIntervals {
  import opened Segments
  import opened Coverage
  import opened Counting
  import opened Transfer
  import opened TransferSafety
  import opened TransferCompletion
  import opened TransferRuns

  // ------------------------------------------------------------------ when there are 1025

  /** One more interval than the limit: 1024 that begin behind byte 0, and the one that holds byte 0. */
  lemma OneTooMany(run: seq<World>, i: nat, k: Key)
    requires IsRun(run) && Initial(run[0]) && i < |run|
    ensures var tr := Rows(run[i].db.transmitted, k);
      |tr| == MAX_INTERVALS + 1 <==> |InnerStarts(tr)| == MAX_INTERVALS && 0 < Count(tr, 0)
  {
    RunHolds(run, i);
    var tr := Rows(run[i].db.transmitted, k);
    assert KeyInv(run[i], k);
    NonNegativeStarts(run[i], k);
    InnerStartsNumber(tr);
    if tr != [] && tr[0].a == 0 { CountAt(tr, 0, 0); }
    if 0 < Count(tr, 0) { var j := CountFind(tr, 0); }
  }

  /** A request is refused as fragmenting only where it would begin an interval of its own behind byte 0: one
      from byte 0 on never is, however many intervals there are. */
  lemma FragmentedBehindZero(db: Store, g: Grant, start: int, end: int, now: int, offered: bool, v: Verdict)
    requires Answers(db, g, start, end, now, offered, v)
    ensures v == Refused(ErrFragmented)
      <==> && (forall e :: !GateFails(db, g, now, e)) && 0 <= start <= end && Count(Rows(db.serves, g.key), start) != 2
           && Isolated(Rows(db.transmitted, g.key), start)
           && |Rows(db.transmitted, g.key)| + Tally(OpenIsolatedFlags(db.requests, g.key)) >= MAX_INTERVALS
    ensures start == 0 ==> v != Refused(ErrFragmented)
  {}

  /** Byte `start` is where the order and file is to be resumed: the least byte that was not transmitted. */
  ghost predicate IsResume(db: Store, k: Key, start: int)
  {
    && k.fid in db.files && 0 <= start < db.files[k.fid].size
    && Holds(Rows(db.transmitted, k), 0, start - 1) && Count(Rows(db.transmitted, k), start) == 0
  }

  /** No byte was lost: none is at two serves and was not transmitted. */
  ghost predicate NoneExhausted(db: Store, k: Key)
  {
    forall x :: Count(Rows(db.serves, k), x) == 2 ==> Count(Rows(db.transmitted, k), x) != 0
  }

  /** Over every run, a request from byte 0 on, or from right behind a transmitted byte, is never refused as
      fragmenting, however many intervals there are: it is admitted exactly when its permission, deadlines and offer
      allow it and its first byte was served less than twice. */
  lemma AttachedIsAdmitted(run: seq<World>, i: nat, g: Grant, start: int, end: int, now: int, offered: bool, v: Verdict)
    requires IsRun(run) && Initial(run[0]) && i < |run| && Answers(run[i].db, g, start, end, now, offered, v)
    requires start == 0 || 0 < Count(Rows(run[i].db.transmitted, g.key), start - 1)
    ensures v != Refused(ErrFragmented)
    ensures v.Admitted? <==> && 0 <= start <= end && (forall e :: !GateFails(run[i].db, g, now, e))
                             && (IsBound(run[i].db, g.jti) || offered) && Count(Rows(run[i].db.serves, g.key), start) < 2
    ensures v.Admitted? ==> !v.isolated && start <= v.end <= end
    ensures v.Admitted? ==> forall x :: start <= x <= v.end ==> Count(Rows(run[i].db.serves, g.key), x) < 2
  {
    RunHolds(run, i);
    assert KeyInv(run[i], g.key);
    FragmentedBehindZero(run[i].db, g, start, end, now, offered, v);
    if v.Admitted? { assert Clipped(Rows(run[i].db.serves, g.key), start, end, v.end); }
  }

  /** So an order and file can always go on: over every run, while bytes are missing and none is exhausted, there is
      a resume offset, and a request from there on is admitted exactly when its permission, deadlines and offer
      allow it and it asks for a byte. */
  lemma ResumeIsAdmitted(run: seq<World>, i: nat, k: Key) returns (start: int)
    requires IsRun(run) && Initial(run[0]) && i < |run| && k.fid in run[i].db.files
    requires !FullyCovered(run[i].db, k) && NoneExhausted(run[i].db, k)
    ensures IsResume(run[i].db, k, start)
    ensures forall g: Grant, end, now, offered, v :: g.key == k && Answers(run[i].db, g, start, end, now, offered, v) ==>
      (v.Admitted? <==> && start <= end && (forall e :: !GateFails(run[i].db, g, now, e))
                        && (IsBound(run[i].db, g.jti) || offered))
  {
    RunHolds(run, i);
    assert KeyInv(run[i], k);
    var tr, size := Rows(run[i].db.transmitted, k), run[i].db.files[k.fid].size;
    start := LeastMissing(tr, 0, size);
    forall g: Grant, end, now, offered, v | g.key == k && Answers(run[i].db, g, start, end, now, offered, v)
      ensures v.Admitted? <==> && start <= end && (forall e :: !GateFails(run[i].db, g, now, e))
                               && (IsBound(run[i].db, g.jti) || offered)
    {
      AttachedIsAdmitted(run, i, g, start, end, now, offered, v);
    }
  }

  lemma {:induction false} LeastMissing(tr: seq<Segment>, from: int, size: int) returns (x: int)
    requires Ordered(tr) && 0 <= from && Holds(tr, 0, from - 1) && !Holds(tr, 0, size - 1)
    ensures 0 <= x < size && Holds(tr, 0, x - 1) && Count(tr, x) == 0
    ensures x > 0 ==> 0 < Count(tr, x - 1)
    decreases size - from
  {
    CountNonNegative(tr, from);
    if 0 < Count(tr, from) {
      x := LeastMissing(tr, from + 1, size);
    } else {
      x := from;
    }
  }

  // ------------------------------------------------------------------ a run that gets there

  /** Bytes 2, 4, ... up to `2 * n`. */
  function Comb(n: nat): (s: seq<Segment>)
    ensures |s| == n && forall i :: 0 <= i < n ==> s[i] == Segment(2 * i + 2, 2 * i + 2, 1)
  {
    seq(n, i requires 0 <= i < n => Segment(2 * i + 2, 2 * i + 2, 1))
  }

  /** The list `s'` holds byte `p` besides what `s` holds. */
  ghost predicate Gains(s: seq<Segment>, s': seq<Segment>, p: int)
  {
    Unit(s) && Unit(s') && Count(s, p) == 0 && forall x :: Count(s', x) == if x == p then 1 else Count(s, x)
  }

  lemma {:induction false} CombCounts(n: nat)
    ensures Unit(Comb(n)) && forall x :: Count(Comb(n), x) == if x % 2 == 0 && 2 <= x <= 2 * n then 1 else 0
  {
    if n > 0 {
      CombCounts(n - 1);
      assert Comb(n) == Comb(n - 1) + [Segment(2 * n, 2 * n, 1)];
      forall x ensures Count(Comb(n), x) == if x == 2 * n then 1 else Count(Comb(n - 1), x) {
        CountAppend(Comb(n - 1), Segment(2 * n, 2 * n, 1), x);
      }
    }
  }

  lemma CombGains(n: nat)
    ensures Gains(Comb(n), Comb(n + 1), 2 * n + 2)
  {
    CombCounts(n);
    CombCounts(n + 1);
  }

  lemma ZeroGains(n: nat)
    ensures Gains(Comb(n), [Segment(0, 0, 1)] + Comb(n), 0)
  {
    CombCounts(n);
    var s := [Segment(0, 0, 1)] + Comb(n);
    assert s[1..] == Comb(n);
    assert Unit(s);
  }

  /** Bytes `s` of the file were served once and sent, byte 1 was not, and nothing is going on. */
  ghost predicate Rest(w: World, g: Grant, s: seq<Segment>)
  {
    && w.up && Valid0(w) && NoWriter(w, g.key)
    && g.key.fid in w.db.files && w.db.files[g.key.fid].size > 1
    && Unit(s) && Count(s, 1) == 0
    && Rows(w.db.serves, g.key) == s && Rows(w.db.transmitted, g.key) == s
    && RowAccepts(w.db, g) && g.terms.startBy > 0 && g.terms.transferBy > 0
    && g.jti !in w.db.revocations && g.key !in w.db.completed
    && forall i :: 0 <= i < |w.db.requests| ==> !w.db.requests[i].open
  }

  /** Byte `p` can be had. */
  ghost predicate Free(w: World, g: Grant, s: seq<Segment>, p: int, s': seq<Segment>)
  {
    && Rest(w, g, s) && Gains(s, s', p) && p != 1 && 0 <= p < w.db.files[g.key.fid].size
    && (Isolated(s, p) ==> |s| < MAX_INTERVALS)
  }

  /** A response for byte `p` has been admitted, at `phase`, having sent up to `sent` and recorded up to `written`. */
  ghost predicate Busy(w: World, g: Grant, p: int, s': seq<Segment>, tr: seq<Segment>, written: int, sent: int, phase: Phase)
  {
    var id := |w.track| - 1;
    && w.up && Valid0(w) && id >= 0 && g.key.fid in w.db.files && 0 <= p < w.db.files[g.key.fid].size
    && 1 < w.db.files[g.key.fid].size && Count(s', 1) == 0 && Unit(s') && Unit(tr) && Count(tr, 1) == 0
    && g.key in w.db.serves && Rows(w.db.serves, g.key) == s' && Rows(w.db.transmitted, g.key) == tr
    && IsBound(w.db, g.jti) && w.db.permissions[g.jti].key == g.key && w.db.permissions[g.jti].terms == g.terms
    && g.terms.startBy > 0 && g.terms.transferBy > 0 && g.jti !in w.db.revocations && g.key !in w.db.completed
    && (exists isolated :: w.db.requests[id] == Request(g.jti, g.key, p, p, written, true, isolated))
    && w.track[id] == Track(p, sent, phase)
    && (forall i :: 0 <= i < id ==> !w.db.requests[i].open)
    && (forall i :: 0 <= i < id && w.db.requests[i].key == g.key ==> !w.track[i].phase.Writing?)
  }

  lemma TakeByte(w: World, g: Grant, s: seq<Segment>, p: int, s': seq<Segment>) returns (w': World)
    requires Free(w, g, s, p, s')
    ensures Step(w, w') && Busy(w', g, p, s', s, p - 1, p - 1, Idle) && w'.db.files == w.db.files
  {
    var isolated := Isolated(s, p);
    var request := Request(g.jti, g.key, p, p, p - 1, true, isolated);
    w' := w.(db := w.db.(serves := w.db.serves[g.key := s'],
                         permissions := if IsBound(w.db, g.jti) then w.db.permissions else Bind(w.db.permissions, g),
                         requests := w.db.requests + [request]),
             track := w.track + [Track(p, p - 1, Idle)]);
    TakenByte(w, g, s, p, s', w');
    assert Does(w, w', Reserve(g, p, p, 0, true, Admitted(p, isolated)));
    assert w'.db.requests[|w.track|] == request;
  }

  lemma TakenByte(w: World, g: Grant, s: seq<Segment>, p: int, s': seq<Segment>, w': World)
    requires Free(w, g, s, p, s') && w'.db.serves == w.db.serves[g.key := s']
    ensures Answers(w.db, g, p, p, 0, true, Admitted(p, Isolated(s, p)))
    ensures Rewritten(w.db.serves, w'.db.serves, g.key, p, p, 1)
  {
    TallyNone(OpenIsolatedFlags(w.db.requests, g.key));
    assert !FullyCovered(w.db, g.key);
    forall x ensures 0 <= Count(s, x) { CountNonNegative(s, x); }
    assert forall e :: !GateFails(w.db, g, 0, e);
  }

  lemma BeginByte(w: World, g: Grant, p: int, s': seq<Segment>, tr: seq<Segment>) returns (w': World)
    requires Busy(w, g, p, s', tr, p - 1, p - 1, Idle)
    ensures Step(w, w') && Busy(w', g, p, s', tr, p - 1, p - 1, Writing(p)) && w'.db.files == w.db.files
  {
    var id := |w.track| - 1;
    w' := w.(track := w.track[id := w.track[id].(phase := Writing(p))]);
    assert !FullyCovered(w.db, g.key);
    assert Does(w, w', Begin(id, 1, 0));
  }

  lemma SendByte(w: World, g: Grant, p: int, s': seq<Segment>, tr: seq<Segment>) returns (w': World)
    requires Busy(w, g, p, s', tr, p - 1, p - 1, Writing(p))
    ensures Step(w, w') && Busy(w', g, p, s', tr, p - 1, p, Writing(p)) && w'.db.files == w.db.files
  {
    var id := |w.track| - 1;
    w' := w.(track := w.track[id := w.track[id].(sent := p)], net := w.net + [NetWrite(g.key, p, p)]);
    assert Does(w, w', Send(id, 1));
  }

  lemma RecordByte(w: World, g: Grant, p: int, s': seq<Segment>, tr: seq<Segment>) returns (w': World)
    requires Busy(w, g, p, s', tr, p - 1, p, Writing(p)) && Gains(tr, s', p)
    ensures Step(w, w') && Busy(w', g, p, s', s', p, p, Writing(p)) && w'.db.files == w.db.files
  {
    var id := |w.track| - 1;
    var mid := w.db.(transmitted := w.db.transmitted[g.key := s'],
                     requests := w.db.requests[id := w.db.requests[id].(written := p)]);
    w' := w.(db := Queue(mid, g.key, "in_progress"));
    forall x ensures Count(s', x) == if p <= x <= p || 0 < Count(tr, x) then 1 else 0 {
      UnitCount(tr, x);
    }
    assert Does(w, w', Checkpoint(id));
  }

  lemma UnitCount(s: seq<Segment>, x: int)
    requires Unit(s)
    ensures Count(s, x) == 0 || Count(s, x) == 1
  {
    if Count(s, x) != 0 { var i := CountFind(s, x); }
  }

  lemma ReturnByte(w: World, g: Grant, p: int, s': seq<Segment>) returns (w': World)
    requires Busy(w, g, p, s', s', p, p, Writing(p))
    ensures Step(w, w') && Busy(w', g, p, s', s', p, p, Idle) && w'.db.files == w.db.files
  {
    var id := |w.track| - 1;
    w' := w.(track := w.track[id := w.track[id].(phase := Idle)]);
    assert Does(w, w', Return(id));
  }

  lemma CloseByte(w: World, g: Grant, p: int, s': seq<Segment>) returns (w': World)
    requires Busy(w, g, p, s', s', p, p, Idle)
    ensures Step(w, w') && Rest(w', g, s') && w'.db.files == w.db.files
  {
    var id := |w.track| - 1;
    w' := w.(db := w.db.(requests := w.db.requests[id := w.db.requests[id].(open := false)]));
    assert !FullyCovered(w.db, g.key);
    forall x ensures 0 <= Count(s', x) { CountNonNegative(s', x); }
    assert Does(w, w', Settle(id, false, ""));
  }

  /** One byte more: admitted, written, recorded, and closed. */
  lemma ServeByte(run: seq<World>, g: Grant, s: seq<Segment>, p: int, s': seq<Segment>) returns (more: seq<World>)
    requires IsRun(run) && Free(Last(run), g, s, p, s')
    ensures IsRun(more) && more[0] == run[0] && Rest(Last(more), g, s') && Last(more).db.files == Last(run).db.files
  {
    var w := Last(run);
    var w1 := TakeByte(w, g, s, p, s');
    var w2 := BeginByte(w1, g, p, s', s);
    var w3 := SendByte(w2, g, p, s', s);
    var w4 := RecordByte(w3, g, p, s', s);
    var w5 := ReturnByte(w4, g, p, s');
    var w6 := CloseByte(w5, g, p, s');
    more := SixSteps(run, w1, w2, w3, w4, w5, w6);
  }

  lemma SixSteps(run: seq<World>, w1: World, w2: World, w3: World, w4: World, w5: World, w6: World) returns (more: seq<World>)
    requires IsRun(run) && Step(Last(run), w1) && Step(w1, w2) && Step(w2, w3) && Step(w3, w4) && Step(w4, w5) && Step(w5, w6)
    ensures IsRun(more) && more[0] == run[0] && Last(more) == w6
  {
    more := StepsOn(run, w1);
    more := StepsOn(more, w2);
    more := StepsOn(more, w3);
    more := StepsOn(more, w4);
    more := StepsOn(more, w5);
    more := StepsOn(more, w6);
  }

  lemma StepsOn(run: seq<World>, w: World) returns (more: seq<World>)
    requires IsRun(run) && Step(Last(run), w)
    ensures IsRun(more) && more[0] == run[0] && Last(more) == w
  {
    more := run + [w];
    forall i | 0 <= i < |run| ensures Follows(more, i) {
      if i < |run| - 1 { assert Follows(run, i); }
    }
  }

  function Last(run: seq<World>): World
    requires run != []
  {
    run[|run| - 1]
  }

  /** Every second byte behind byte 0, each by a response of its own. */
  lemma {:induction false} ServeComb(w: World, g: Grant, n: nat) returns (run: seq<World>)
    requires Rest(w, g, []) && n <= MAX_INTERVALS && 2 * n < w.db.files[g.key.fid].size
    ensures IsRun(run) && run[0] == w && Rest(Last(run), g, Comb(n)) && Last(run).db.files == w.db.files
  {
    if n == 0 {
      run := [w];
    } else {
      run := ServeComb(w, g, n - 1);
      CombGains(n - 1);
      run := ServeByte(run, g, Comb(n - 1), 2 * n, Comb(n));
    }
  }

  /** A run in which a file gets 1025 intervals. */
  lemma ServeTooMany(w: World, g: Grant) returns (run: seq<World>)
    requires Initial(w) && g.key.fid in w.db.files && w.db.files[g.key.fid].size > 2 * MAX_INTERVALS
    requires g.terms.startBy > 0 && g.terms.transferBy > 0
    ensures IsRun(run) && run[0] == w && |Rows(Last(run).db.transmitted, g.key)| == MAX_INTERVALS + 1
  {
    run := ServeComb(w, g, MAX_INTERVALS);
    ZeroGains(MAX_INTERVALS);
    run := ServeByte(run, g, Comb(MAX_INTERVALS), 0, [Segment(0, 0, 1)] + Comb(MAX_INTERVALS));
  }

  // ------------------------------------------------------------------ for which files

  /** Some run from these files gives `k` so many intervals. */
  ghost predicate Reaches(files: map<string, File>, k: Key, n: nat)
  {
    exists run: seq<World> :: IsRun(run) && Initial(run[0]) && run[0].db.files == files && |Rows(Last(run).db.transmitted, k)| == n
  }

  /** Separate intervals need a byte between them. */
  lemma {:induction false} IntervalsNeedRoom(s: seq<Segment>, size: int)
    requires Unit(s) && s != [] && Within(s, 0, size)
    ensures 2 * |s| - 1 <= s[|s| - 1].b + 1 <= size
  {
    var n := |s| - 1;
    CountAt(s, n, s[n].b);
    if n > 0 {
      var front := s[..n];
      assert Unit(front);
      assert Within(front, 0, size);
      IntervalsNeedRoom(front, size);
      assert front[n - 1].b + 1 < s[n].a;
    }
  }

  lemma {:induction false} FilesStay(run: seq<World>, i: nat)
    requires IsRun(run) && i < |run|
    ensures run[i].db.files == run[0].db.files
  {
    if i > 0 {
      FilesStay(run, i - 1);
      assert Follows(run, i - 1);
      var a :| Does(run[i - 1], run[i], a);
      FilesKept(run[i - 1], run[i], a);
    }
  }

  lemma FilesKept(w: World, w': World, a: Action)
    requires Does(w, w', a)
    ensures w'.db.files == w.db.files
  {
  }

  /** Just the files of more than 2048 bytes can have 1025 intervals. */
  lemma TooManyReached(files: map<string, File>, k: Key)
    requires forall f :: f in files ==> 0 <= files[f].size
    ensures Reaches(files, k, MAX_INTERVALS + 1) <==> k.fid in files && files[k.fid].size > 2 * MAX_INTERVALS
  {
    if Reaches(files, k, MAX_INTERVALS + 1) {
      var run: seq<World> :| IsRun(run) && Initial(run[0]) && run[0].db.files == files
                             && |Rows(Last(run).db.transmitted, k)| == MAX_INTERVALS + 1;
      var i := |run| - 1;
      FilesStay(run, i);
      RunHolds(run, i);
      assert KeyInv(run[i], k);
      TransmittedInSome(run[i], k);
      TransmittedInFile(run[i], k);
      IntervalsNeedRoom(Rows(run[i].db.transmitted, k), files[k.fid].size);
    }
    if k.fid in files && files[k.fid].size > 2 * MAX_INTERVALS {
      var w := World(Store(files, map[], map[], [], map[], {}, {}, []), [], [], true);
      var run := ServeTooMany(w, Grant("", k, Terms("", 1, 1, 0)));
    }
  }

  lemma TransmittedInSome(w: World, k: Key)
    requires AllRows(w) && RecordTrue(w, k) && Rows(w.db.transmitted, k) != []
    ensures k.fid in w.db.files
  {
    var tr := Rows(w.db.transmitted, k);
    CountAt(tr, 0, tr[0].a);
    var i :| Wrote(w, k, tr[0].a, i);
    assert w.track[i] == w.track[i] && RowOk(w, i);
  }
}
