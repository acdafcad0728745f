/** Building a census: counting members and results, and the loops that turn the counts into what is published. */
module CensusBuild {
  import opened Cells
  import opened Occupancy
  import opened Census
  import opened Disclosure
  import Rates

  /** Class names are never empty. */
  predicate Named(r: Raw)
  {
    && "" !in r.extensions && "" !in r.sizes && "" !in r.reasons && "" !in r.interiorReasons
    && "" !in r.inspected.classes && "" !in r.inspected.encodings && "" !in r.inspected.scripts
  }

  /** The members beyond the first of each group. */
  method CountRepeated(counts: Cells) returns (repeated: int)
    ensures repeated == Repeated(counts)
  {
    repeated := 0;
    var todo := counts.Keys;
    while todo != {}
      invariant todo <= counts.Keys && repeated == Repeated(counts - todo)
      decreases |todo|
    {
      var k :| k in todo;
      OneMore(counts, todo, k);
      todo := todo - {k};
      if counts[k] > 1 { repeated := repeated + counts[k] - 1; }
    }
    assert counts - {} == counts;
  }

  lemma OneMore(counts: Cells, todo: set<string>, k: string)
    requires k in todo && todo <= counts.Keys
    ensures Repeated(counts - (todo - {k})) == Repeated(counts - todo) + if counts[k] > 1 then counts[k] - 1 else 0
  {
    GroupsMore(counts, todo, k);
    var before := Groups(counts - todo);
    if counts[k] > 1 {
      SumPut(before, k, counts[k]);
      assert before - {k} == before && before[k := counts[k]].Keys == before.Keys + {k};
    }
  }

  lemma GroupsMore(counts: Cells, todo: set<string>, k: string)
    requires k in todo && todo <= counts.Keys
    ensures k !in Groups(counts - todo)
    ensures Groups(counts - (todo - {k}))
            == if counts[k] > 1 then Groups(counts - todo)[k := counts[k]] else Groups(counts - todo)
  {
  }

  method DuplicateRatePPM(counts: Cells, n: int) returns (rate: int)
    ensures rate == DuplicateRate(counts, n)
  {
    var repeated := CountRepeated(counts);
    rate := if n <= 0 then 0 else Rates.RateUnits(repeated, n);
  }

  method Total(m: Cells) returns (total: int)
    ensures total == Sum(m)
  {
    total := 0;
    var rest := m;
    while rest != map[]
      invariant total + Sum(rest) == Sum(m)
      decreases |rest|
    {
      assert rest.Keys != {};
      var k :| k in rest;
      SumRemove(rest, k);
      total := total + rest[k];
      rest := rest - {k};
    }
  }

  method FinishInspected(a: Inspection) returns (s: Inspected)
    requires "" !in a.classes && "" !in a.encodings && "" !in a.scripts
    ensures s == InspectedOf(a)
  {
    var n := a.files;
    var classes := BuildPartition(a.classes, n, false);
    var detectors := FinishDetectors(a);
    var licences := FinishLicences(a);
    var duplicates := FinishDuplicates(a);
    var encodings := BuildPartition(a.encodings, n, false);
    var text := Total(a.scripts);
    var scripts := BuildPartition(a.scripts, text, false);
    s := Inspected(classes, detectors, licences, duplicates, encodings, scripts,
                   FindingOf("", n, [CountBand(a.empty)]), FindingOf("", n, [CountBand(a.garbage)]));
  }

  method FinishDetectors(a: Inspection) returns (detectors: seq<Finding>)
    ensures detectors == DetectorsOf(a)
  {
    detectors := [];
    for i := 0 to |DETECTORS|
      invariant detectors == DetectorsOf(a)[..i]
    {
      var f := Finding(DETECTORS[i], Population(a.files), FindingState(a.files), []);
      if a.files >= 10 { f := f.(bands := [CountBand(At(a.hitFiles, DETECTORS[i])), CountBand(At(a.hits, DETECTORS[i]))]); }
      detectors := detectors + [f];
    }
  }

  method FinishLicences(a: Inspection) returns (licences: seq<Finding>)
    ensures licences == LicencesOf(a)
  {
    licences := [];
    for i := 0 to |FAMILIES|
      invariant licences == LicencesOf(a)[..i]
    {
      var f := Finding(FAMILIES[i], Population(a.files), FindingState(a.files), []);
      if a.files >= 10 { f := f.(bands := [CountBand(At(a.licences, FAMILIES[i]))]); }
      licences := licences + [f];
    }
  }

  method FinishDuplicates(a: Inspection) returns (d: Duplicates)
    ensures d == DuplicatesOf(a)
  {
    d := Duplicates(Absent, Absent, FindingState(a.nearFiles), Population(a.files), FindingState(a.files));
    if a.files >= 10 {
      var exact := DuplicateRatePPM(a.exact, a.files);
      d := d.(exactRate := Exact(exact));
      if a.nearFiles >= 10 {
        var near := DuplicateRatePPM(a.near, a.files);
        d := d.(nearRate := Exact(near));
      }
    }
  }

  /** Takes every finding back but the band of the number of files. */
  method SuppressInspected(s0: Inspected, n: int) returns (s: Inspected)
    ensures s == Hidden(s0, n)
  {
    var p := Band(CountBand(n));
    var none := Partition(Suppressed, p, []);
    var detectors, licences := s0.detectors, s0.licences;
    for i := 0 to |detectors|
      invariant |detectors| == |s0.detectors|
      invariant forall k :: 0 <= k < |detectors| ==>
        detectors[k] == if k < i then Finding(s0.detectors[k].name, p, Suppressed, []) else s0.detectors[k]
    {
      detectors := detectors[i := detectors[i].(state := Suppressed, population := p, bands := [])];
    }
    for i := 0 to |licences|
      invariant |licences| == |s0.licences|
      invariant forall k :: 0 <= k < |licences| ==>
        licences[k] == if k < i then Finding(s0.licences[k].name, p, Suppressed, []) else s0.licences[k]
    {
      licences := licences[i := licences[i].(state := Suppressed, population := p, bands := [])];
    }
    var empty := Finding("", p, Suppressed, []);
    s := s0.(byClass := none, encodings := none, scripts := none, detectors := detectors, licences := licences,
             duplicates := Duplicates(Absent, Absent, Suppressed, p, Suppressed), emptyFiles := empty, garbageFiles := empty);
  }

  method FinishCoverage(r: Raw) returns (c: Coverage)
    requires Named(r)
    ensures c == CoverageOf(r)
  {
    var states := BuildPartition(States(r), r.members, true);
    var exact := states.state == Checked && r.fully + r.partly >= 10 && r.unread >= 10;
    var reasons := BuildPartition(r.reasons, r.members, false);
    c := Coverage(states, Population(r.members), ByteCount(r.storedRead, r.fully + r.partly, exact),
                  ByteCount(r.stored, r.members, exact), ByteCount(r.processed, r.fully + r.partly, exact),
                  r.fully != r.members, reasons,
                  r.unreadable > 0 && r.readable < (r.readable + r.unreadable + 9) / 10);
  }

  method FinishInteriors(r: Raw) returns (c: Interiors)
    requires Named(r)
    ensures c == InteriorsOf(r)
  {
    var state := FindingState(r.archivesOpened);
    var reasons := BuildPartition(r.interiorReasons, r.archivesOpened, false);
    c := Interiors(state, Population(r.archivesOpened), PartCount(r.archivesOpened, r.archives),
                   PartCount(r.partial, r.archivesOpened), Band(CountBand(r.entries)), Band(SizeBucket(r.entryBytes)), reasons);
    if r.archivesOpened < 10 {
      c := Interiors(state, Population(r.archivesOpened), Absent, Absent, Absent, Absent,
                     Partition(state, Population(r.archivesOpened), []));
    }
  }

  /** The census as it is published. */
  method Finish(r: Raw) returns (c: Census)
    requires Named(r)
    ensures c == CensusOf(r)
  {
    var extensions := BuildPartition(r.extensions, r.members, false);
    var sizes := BuildPartition(r.sizes, r.members, false);
    var coverage := FinishCoverage(r);
    var interiors := FinishInteriors(r);
    var inspected := FinishInspected(r.inspected);
    if r.archivesOpened > 0 && r.archivesOpened < 10 {
      inspected := SuppressInspected(inspected, r.inspected.files);
    }
    c := Census(VERSION, if r.fully != r.members then SAMPLED else COMPLETE,
                Inventory(Population(r.members), ByteCount(r.stored, r.members, true), extensions, sizes,
                          PartCount(r.archives, r.members)),
                coverage, interiors, inspected);
  }

  // ------------------------------------------------------------------ counting

  datatype Member = Member(kind: string, size: int, archive: bool)

  datatype ReadState = Fully | Partly | Unread

  /** What reading one member came to; `reasons` counts what inside an archive was not read, by reason. */
  datatype Outcome = Outcome(state: ReadState, reason: string, storedRead: int, processed: int, readable: int, unreadable: int,
                             reached: bool, plain: bool, entries: int, entryBytes: int, reasons: Cells,
                             findings: Inspection)

  type Result = (Member, Outcome)

  /** A result that counts as an opened archive. */
  predicate IsArchive(x: Result)
  {
    x.0.archive && x.1.reached && !x.1.plain
  }

  // What one member or result adds to a count.

  function OfKind(k: string, m: Member): nat { if m.kind == k then 1 else 0 }

  function OfBucket(k: string, m: Member): nat { if SizeBucket(m.size) == k then 1 else 0 }

  function SumMembers(ms: seq<Member>, f: Member -> int): int
  {
    if ms == [] then 0 else SumMembers(ms[..|ms| - 1], f) + f(ms[|ms| - 1])
  }

  function SumResults(xs: seq<Result>, f: Result -> int): int
  {
    if xs == [] then 0 else SumResults(xs[..|xs| - 1], f) + f(xs[|xs| - 1])
  }

  function CountKinds(ms: seq<Member>, k: string): nat
  {
    if ms == [] then 0 else CountKinds(ms[..|ms| - 1], k) + OfKind(k, ms[|ms| - 1])
  }

  function CountBuckets(ms: seq<Member>, k: string): nat
  {
    if ms == [] then 0 else CountBuckets(ms[..|ms| - 1], k) + OfBucket(k, ms[|ms| - 1])
  }

  function CountStates(xs: seq<Result>, s: ReadState): nat
  {
    if xs == [] then 0 else CountStates(xs[..|xs| - 1], s) + if xs[|xs| - 1].1.state == s then 1 else 0
  }

  /** Results unread for reason `k`. */
  function CountReasons(xs: seq<Result>, k: string): nat
  {
    if xs == [] then 0
    else CountReasons(xs[..|xs| - 1], k) + if xs[|xs| - 1].1.reason == k && k != "" then 1 else 0
  }

  /** Results that were given a reason. */
  function CountExplained(xs: seq<Result>): nat
  {
    if xs == [] then 0 else CountExplained(xs[..|xs| - 1]) + if xs[|xs| - 1].1.reason != "" then 1 else 0
  }

  /** Partly read results that were given a reason. */
  function CountPartlyExplained(xs: seq<Result>): nat
  {
    if xs == [] then 0
    else
      var x := xs[|xs| - 1].1;
      CountPartlyExplained(xs[..|xs| - 1]) + if x.state == Partly && x.reason != "" then 1 else 0
  }

  /** Every unread result was given a reason, and no fully read one. */
  predicate WellReasoned(xs: seq<Result>)
  {
    forall i :: 0 <= i < |xs| ==> (xs[i].1.state == Unread ==> xs[i].1.reason != "") && (xs[i].1.state == Fully ==> xs[i].1.reason == "")
  }

  lemma {:induction false} ReasonsSplit(xs: seq<Result>)
    requires WellReasoned(xs)
    ensures CountExplained(xs) == CountStates(xs, Unread) + CountPartlyExplained(xs)
  {
    if xs != [] {
      assert WellReasoned(xs[..|xs| - 1]);
      ReasonsSplit(xs[..|xs| - 1]);
    }
  }

  /** What inside archives was unread for reason `k`. */
  function CountInterior(xs: seq<Result>, k: string): int
  {
    if xs == [] then 0 else CountInterior(xs[..|xs| - 1], k) + At(xs[|xs| - 1].1.reasons, k)
  }

  function CountArchives(xs: seq<Result>, partialOnly: bool): nat
  {
    if xs == [] then 0
    else
      var x := xs[|xs| - 1];
      CountArchives(xs[..|xs| - 1], partialOnly) + if IsArchive(x) && (partialOnly ==> x.1.state != Fully) then 1 else 0
  }

  function Size(m: Member): int { m.size }

  function One(m: Member): int { if m.archive then 1 else 0 }

  function StoredRead(x: Result): int { x.1.storedRead }

  function Processed(x: Result): int { x.1.processed }

  function Readable(x: Result): int { x.1.readable }

  function Unreadable(x: Result): int { x.1.unreadable }

  function Entries(x: Result): int { if IsArchive(x) then x.1.entries else 0 }

  function EntryBytes(x: Result): int { if IsArchive(x) then x.1.entryBytes else 0 }

  lemma {:induction false} StatesAddUp(xs: seq<Result>)
    ensures CountStates(xs, Fully) + CountStates(xs, Partly) + CountStates(xs, Unread) == |xs|
    ensures CountArchives(xs, true) <= CountArchives(xs, false) <= |xs|
    ensures CountArchives(xs, true) <= CountStates(xs, Partly) + CountStates(xs, Unread)
  {
    if xs != [] { StatesAddUp(xs[..|xs| - 1]); }
  }

  function Bumped(m: Cells, k: string): Cells
  {
    m[k := At(m, k) + 1]
  }

  lemma BumpAddsOne(m: Cells, k: string)
    requires NonNegative(m)
    ensures Sum(Bumped(m, k)) == Sum(m) + 1 && NonNegative(Bumped(m, k))
  {
    SumPut(m, k, At(m, k) + 1);
    SumDrop(m, k);
  }

  /** The inventory counts of exactly these members. */
  ghost predicate Inventoried(r: Raw, ms: seq<Member>)
  {
    && r.members == |ms| == Sum(r.extensions) == Sum(r.sizes)
    && r.stored == SumMembers(ms, Size) && r.archives == SumMembers(ms, One)
    && NonNegative(r.extensions) && NonNegative(r.sizes)
    && (forall k :: At(r.extensions, k) == CountKinds(ms, k))
    && (forall k :: At(r.sizes, k) == CountBuckets(ms, k))
  }

  /** The counts of exactly these results. */
  ghost predicate Counted(r: Raw, xs: seq<Result>)
  {
    && r.fully == CountStates(xs, Fully) && r.partly == CountStates(xs, Partly) && r.unread == CountStates(xs, Unread)
    && r.archivesOpened == CountArchives(xs, false) && r.partial == CountArchives(xs, true)
    && r.storedRead == SumResults(xs, StoredRead) && r.processed == SumResults(xs, Processed)
    && r.readable == SumResults(xs, Readable) && r.unreadable == SumResults(xs, Unreadable)
    && r.entries == SumResults(xs, Entries) && r.entryBytes == SumResults(xs, EntryBytes)
  }

  ghost predicate Explained(r: Raw, xs: seq<Result>)
  {
    && NonNegative(r.reasons) && Sum(r.reasons) == CountExplained(xs)
    && (forall k :: At(r.reasons, k) == CountReasons(xs, k))
    && (forall k :: At(r.interiorReasons, k) == CountInterior(xs, k))
  }

  lemma MoreMembers(r: Raw, s: Raw, ms: seq<Member>, m: Member)
    requires Inventoried(r, ms)
    requires s == r.(members := r.members + 1, stored := r.stored + m.size, archives := r.archives + One(m),
                     extensions := Bumped(r.extensions, m.kind), sizes := Bumped(r.sizes, SizeBucket(m.size)))
    ensures Inventoried(s, ms + [m])
  {
    BumpAddsOne(r.extensions, m.kind);
    BumpAddsOne(r.sizes, SizeBucket(m.size));
    assert (ms + [m])[..|ms|] == ms;
    assert Size(m) == m.size;
    forall k ensures At(s.extensions, k) == CountKinds(ms + [m], k) && At(s.sizes, k) == CountBuckets(ms + [m], k) {
      assert At(r.extensions, k) == CountKinds(ms, k) && At(r.sizes, k) == CountBuckets(ms, k);
    }
  }

  /** `c` counts what `a` and `b` count together. */
  ghost predicate AddedUp(a: Cells, b: Cells, c: Cells)
  {
    forall k :: At(c, k) == At(a, k) + At(b, k)
  }

  /** Adds the counts of one map to another's. */
  method AddAll(to: Cells, more: Cells) returns (r: Cells)
    ensures AddedUp(to, more, r)
  {
    r := to;
    var todo := more.Keys;
    while todo != {}
      invariant todo <= more.Keys
      invariant forall k :: At(r, k) == At(to, k) + if k in todo then 0 else At(more, k)
      decreases |todo|
    {
      var k :| k in todo;
      todo := todo - {k};
      r := r[k := At(r, k) + more[k]];
    }
  }

  lemma MoreExplained(r: Raw, s: Raw, xs: seq<Result>, x: Result)
    requires Explained(r, xs)
    requires s.reasons == if x.1.reason != "" then Bumped(r.reasons, x.1.reason) else r.reasons
    requires forall k :: At(s.interiorReasons, k) == At(r.interiorReasons, k) + At(x.1.reasons, k)
    ensures Explained(s, xs + [x])
  {
    assert (xs + [x])[..|xs|] == xs;
    if x.1.reason != "" { BumpAddsOne(r.reasons, x.1.reason); }
    forall k ensures At(s.reasons, k) == CountReasons(xs + [x], k) && At(s.interiorReasons, k) == CountInterior(xs + [x], k) {
      assert At(r.reasons, k) == CountReasons(xs, k) && At(r.interiorReasons, k) == CountInterior(xs, k);
    }
  }

  /** The totals of an inspection, and its counts by name. */
  function Totals(a: Inspection): (r: seq<int>)
    ensures |r| == 4
  {
    [a.files, a.empty, a.garbage, a.nearFiles]
  }

  function MapAt(a: Inspection, i: nat): Cells
    requires i < 8
  {
    if i == 0 then a.classes else if i == 1 then a.encodings else if i == 2 then a.scripts else if i == 3 then a.licences
    else if i == 4 then a.hits else if i == 5 then a.hitFiles else if i == 6 then a.exact else a.near
  }

  ghost predicate Together(a: Inspection, b: Inspection, c: Inspection)
  {
    && (forall i :: 0 <= i < 4 ==> Totals(c)[i] == Totals(a)[i] + Totals(b)[i])
    && (forall i :: 0 <= i < 8 ==> AddedUp(MapAt(a, i), MapAt(b, i), MapAt(c, i)))
  }

  method Merge(a: Inspection, b: Inspection) returns (c: Inspection)
    ensures Together(a, b, c)
  {
    var classes := AddAll(a.classes, b.classes);
    var encodings := AddAll(a.encodings, b.encodings);
    var scripts := AddAll(a.scripts, b.scripts);
    var licences := AddAll(a.licences, b.licences);
    var hits := AddAll(a.hits, b.hits);
    var hitFiles := AddAll(a.hitFiles, b.hitFiles);
    var exact := AddAll(a.exact, b.exact);
    var near := AddAll(a.near, b.near);
    c := Inspection(a.files + b.files, a.empty + b.empty, a.garbage + b.garbage, a.nearFiles + b.nearFiles,
                    classes, encodings, scripts, licences, hits, hitFiles, exact, near);
    MapsTogether(a, b, c);
  }

  lemma MapsTogether(a: Inspection, b: Inspection, c: Inspection)
    requires AddedUp(a.classes, b.classes, c.classes) && AddedUp(a.encodings, b.encodings, c.encodings)
    requires AddedUp(a.scripts, b.scripts, c.scripts) && AddedUp(a.licences, b.licences, c.licences)
    requires AddedUp(a.hits, b.hits, c.hits) && AddedUp(a.hitFiles, b.hitFiles, c.hitFiles)
    requires AddedUp(a.exact, b.exact, c.exact) && AddedUp(a.near, b.near, c.near)
    ensures forall i :: 0 <= i < 8 ==> AddedUp(MapAt(a, i), MapAt(b, i), MapAt(c, i))
  {}

  lemma {:induction false} SumAddedUp(a: Cells, b: Cells, c: Cells)
    requires AddedUp(a, b, c)
    ensures Sum(c) == Sum(a) + Sum(b)
    decreases |a| + |b| + |c|
  {
    if a != map[] || b != map[] || c != map[] {
      var k := if a != map[] then Pick(a) else if b != map[] then Pick(b) else Pick(c);
      LessAddedUp(a, b, c, k);
      Less(a, k);
      Less(b, k);
      Less(c, k);
      SumAddedUp(a - {k}, b - {k}, c - {k});
    }
  }

  lemma LessAddedUp(a: Cells, b: Cells, c: Cells, k: string)
    requires AddedUp(a, b, c)
    ensures AddedUp(a - {k}, b - {k}, c - {k}) && At(c, k) == At(a, k) + At(b, k)
  {
    forall l ensures At(c - {k}, l) == At(a - {k}, l) + At(b - {k}, l) { assert At(c, l) == At(a, l) + At(b, l); }
  }

  lemma Less(m: Cells, k: string)
    ensures |m - {k}| == (if k in m then |m| - 1 else |m|) && Sum(m - {k}) == Sum(m) - At(m, k)
  {
    SumDrop(m, k);
    assert (m - {k}).Keys == m.Keys - {k};
  }

  lemma AddedNonNegative(a: Cells, b: Cells, c: Cells)
    requires AddedUp(a, b, c) && NonNegative(a) && NonNegative(b)
    ensures NonNegative(c)
  {
    forall k | k in c ensures c[k] >= 0 { assert At(c, k) == At(a, k) + At(b, k); }
  }

  lemma TogetherTallied(a: Inspection, b: Inspection, c: Inspection)
    requires Tallied(a) && Tallied(b) && Together(a, b, c)
    ensures Tallied(c)
  {
    assert AddedUp(MapAt(a, 0), MapAt(b, 0), MapAt(c, 0)) && AddedUp(MapAt(a, 1), MapAt(b, 1), MapAt(c, 1));
    assert AddedUp(MapAt(a, 2), MapAt(b, 2), MapAt(c, 2)) && Totals(c)[0] == Totals(a)[0] + Totals(b)[0];
    SumAddedUp(a.classes, b.classes, c.classes);
    SumAddedUp(a.encodings, b.encodings, c.encodings);
    AddedNonNegative(a.classes, b.classes, c.classes);
    AddedNonNegative(a.encodings, b.encodings, c.encodings);
    AddedNonNegative(a.scripts, b.scripts, c.scripts);
  }

  /** What was found inside one file. */
  datatype FileFinding = FileFinding(kind: string, encoding: string, script: string, hits: Cells, licences: set<string>,
                                     digest: string, nearEligible: bool, simhash: string)

  /** One file more. */
  ghost predicate Joined(a: Inspection, f: FileFinding, b: Inspection)
  {
    Noted(a, f, b.hits, b.hitFiles, b.licences) && b == With(a, f, b.hits, b.hitFiles, b.licences)
  }

  function With(a: Inspection, f: FileFinding, hits: Cells, hitFiles: Cells, licences: Cells): Inspection
  {
    var near := f.nearEligible;
    Inspection(a.files + 1, if f.kind == "empty" then a.empty + 1 else a.empty,
               if f.kind == "other_binary" then a.garbage + 1 else a.garbage, if near then a.nearFiles + 1 else a.nearFiles,
               Bumped(a.classes, f.kind), Bumped(a.encodings, f.encoding),
               if f.encoding != "binary" then Bumped(a.scripts, f.script) else a.scripts,
               licences, hits, hitFiles, Bumped(a.exact, f.digest), if near then Bumped(a.near, f.simhash) else a.near)
  }

  /** Its hits are added; a detector with hits has one file more, and so has a licence that was found. */
  ghost predicate Noted(a: Inspection, f: FileFinding, hits: Cells, hitFiles: Cells, licences: Cells)
  {
    && AddedUp(a.hits, f.hits, hits) && MoreFiles(a.hitFiles, Positive(f.hits).Keys, hitFiles)
    && MoreFiles(a.licences, f.licences, licences)
  }

  method Note(a: Inspection, f: FileFinding) returns (hits: Cells, hitFiles: Cells, licences: Cells)
    ensures Noted(a, f, hits, hitFiles, licences)
  {
    hits := AddAll(a.hits, f.hits);
    hitFiles := BumpAll(a.hitFiles, Positive(f.hits).Keys);
    licences := BumpAll(a.licences, f.licences);
  }

  /** One more for each of these names. */
  ghost predicate MoreFiles(a: Cells, names: set<string>, b: Cells)
  {
    forall k :: At(b, k) == At(a, k) + if k in names then 1 else 0
  }

  method BumpAll(m: Cells, names: set<string>) returns (r: Cells)
    ensures MoreFiles(m, names, r)
  {
    r := m;
    var todo := names;
    while todo != {}
      invariant todo <= names && forall k :: At(r, k) == At(m, k) + if k in names && k !in todo then 1 else 0
      decreases |todo|
    {
      var k :| k in todo;
      todo := todo - {k};
      r := Bumped(r, k);
    }
  }

  /** Adds one file, unless there is no memory for its digest or its similarity hash. */
  method AddFile(a: Inspection, f: FileFinding, roomForDigest: bool, roomForHash: bool) returns (b: Inspection)
    ensures if (f.digest in a.exact || roomForDigest) && (f.nearEligible ==> f.simhash in a.near || roomForHash)
            then Joined(a, f, b) else b == a
    ensures Tallied(a) ==> Tallied(b)
  {
    b := a;
    if f.digest !in a.exact && !roomForDigest { return; }
    if f.nearEligible && f.simhash !in a.near && !roomForHash { return; }
    var hits, hitFiles, licences := Note(a, f);
    b := With(a, f, hits, hitFiles, licences);
    if Tallied(a) { JoinedTallied(a, f, b); }
  }

  lemma JoinedTallied(a: Inspection, f: FileFinding, b: Inspection)
    requires Tallied(a) && Joined(a, f, b)
    ensures Tallied(b)
  {
    BumpAddsOne(a.classes, f.kind);
    BumpAddsOne(a.encodings, f.encoding);
    BumpAddsOne(a.scripts, f.script);
  }

  /** The findings of each result were counted file by file. */
  ghost predicate AllTallied(start: Inspection, xs: seq<Result>)
  {
    Tallied(start) && forall i :: 0 <= i < |xs| ==> Tallied(xs[i].1.findings) && NonNegative(xs[i].1.reasons)
  }

  /** Then so were those of all results. */
  ghost predicate KeepsTally(r: Raw, start: Inspection, xs: seq<Result>)
  {
    AllTallied(start, xs) ==> Tallied(r.inspected) && NonNegative(r.interiorReasons)
  }

  lemma MoreTallied(r: Raw, s: Raw, start: Inspection, xs: seq<Result>, x: Result)
    requires KeepsTally(r, start, xs)
    requires AddedUp(r.interiorReasons, x.1.reasons, s.interiorReasons) && Together(r.inspected, x.1.findings, s.inspected)
    ensures KeepsTally(s, start, xs + [x])
  {
    var ys := xs + [x];
    if AllTallied(start, ys) {
      assert ys[|xs|] == x && forall i :: 0 <= i < |xs| ==> ys[i] == xs[i];
      TogetherTallied(r.inspected, x.1.findings, s.inspected);
      AddedNonNegative(r.interiorReasons, x.1.reasons, s.interiorReasons);
    }
  }

  /** Results `xs` were found one after another, starting from `empty`. */
  ghost predicate Found(empty: Inspection, xs: seq<Result>, all: Inspection)
  {
    && (forall i :: 0 <= i < 4 ==> Totals(all)[i] == Totals(empty)[i] + FoundTotal(xs, i))
    && (forall i, k :: 0 <= i < 8 ==> At(MapAt(all, i), k) == At(MapAt(empty, i), k) + FoundAt(xs, i, k))
  }

  function FoundTotal(xs: seq<Result>, i: nat): int
    requires i < 4
  {
    if xs == [] then 0 else FoundTotal(xs[..|xs| - 1], i) + Totals(xs[|xs| - 1].1.findings)[i]
  }

  function FoundAt(xs: seq<Result>, i: nat, k: string): int
    requires i < 8
  {
    if xs == [] then 0 else FoundAt(xs[..|xs| - 1], i, k) + At(MapAt(xs[|xs| - 1].1.findings, i), k)
  }

  lemma MoreFound(empty: Inspection, xs: seq<Result>, a: Inspection, x: Result, b: Inspection)
    requires Found(empty, xs, a) && Together(a, x.1.findings, b)
    ensures Found(empty, xs + [x], b)
  {
    assert (xs + [x])[..|xs|] == xs;
    forall i, k | 0 <= i < 8 ensures At(MapAt(b, i), k) == At(MapAt(empty, i), k) + FoundAt(xs + [x], i, k) {
      assert AddedUp(MapAt(a, i), MapAt(x.1.findings, i), MapAt(b, i));
      assert At(MapAt(a, i), k) == At(MapAt(empty, i), k) + FoundAt(xs, i, k);
    }
  }

  /** The states, archives and sums of one more result. */
  function Summed(r: Raw, x: Result): Raw
  {
    var archive := IsArchive(x);
    r.(fully := r.fully + if x.1.state == Fully then 1 else 0,
       partly := r.partly + if x.1.state == Partly then 1 else 0,
       unread := r.unread + if x.1.state == Unread then 1 else 0,
       storedRead := r.storedRead + x.1.storedRead, processed := r.processed + x.1.processed,
       readable := r.readable + x.1.readable, unreadable := r.unreadable + x.1.unreadable,
       archivesOpened := r.archivesOpened + if archive then 1 else 0,
       partial := r.partial + if archive && x.1.state != Fully then 1 else 0,
       entries := r.entries + Entries(x), entryBytes := r.entryBytes + EntryBytes(x))
  }

  lemma MoreCounted(r: Raw, xs: seq<Result>, x: Result)
    requires Counted(r, xs)
    ensures Counted(Summed(r, x), xs + [x])
  {
    assert (xs + [x])[..|xs|] == xs;
    assert StoredRead(x) == x.1.storedRead && Processed(x) == x.1.processed;
    assert Readable(x) == x.1.readable && Unreadable(x) == x.1.unreadable;
  }

  class Counter {
    var raw: Raw
    ghost const start: Inspection
    ghost var all: seq<Member>
    ghost var added: seq<Result>

    ghost predicate Valid()
      reads this
    {
      Inventoried(raw, all) && Counted(raw, added) && Explained(raw, added) && Found(start, added, raw.inspected)
      && KeepsTally(raw, start, added)
    }

    constructor (members: seq<Member>, empty: Inspection)
      ensures Valid() && added == [] && all == members && start == empty
    {
      raw := Raw(0, 0, 0, 0, 0, 0, 0, 0, 0, 0, 0, 0, 0, 0, map[], map[], map[], map[], empty);
      start, all, added := empty, [], [];
      new;
      for i := 0 to |members|
        invariant Valid() && added == [] && all == members[..i]
      {
        Include(members[i]);
      }
    }

    method Include(m: Member)
      requires Valid() && added == []
      modifies this
      ensures Valid() && added == [] && all == old(all) + [m]
    {
      ghost var was := raw;
      raw := raw.(members := raw.members + 1, stored := raw.stored + m.size,
                  extensions := Bumped(raw.extensions, m.kind), sizes := Bumped(raw.sizes, SizeBucket(m.size)));
      if m.archive { raw := raw.(archives := raw.archives + 1); }
      MoreMembers(was, raw, all, m);
      all := all + [m];
    }

    /** The states, archives and sums of a result. */
    method AddSums(m: Member, x: Outcome)
      modifies `raw
      ensures raw == Summed(old(raw), (m, x))
    {
      match x.state {
        case Fully => raw := raw.(fully := raw.fully + 1);
        case Partly => raw := raw.(partly := raw.partly + 1);
        case Unread => raw := raw.(unread := raw.unread + 1);
      }
      raw := raw.(storedRead := raw.storedRead + x.storedRead, processed := raw.processed + x.processed,
                  readable := raw.readable + x.readable, unreadable := raw.unreadable + x.unreadable);
      if IsArchive((m, x)) {
        raw := raw.(archivesOpened := raw.archivesOpened + 1, partial := raw.partial + if x.state != Fully then 1 else 0,
                    entries := raw.entries + x.entries, entryBytes := raw.entryBytes + x.entryBytes);
      }
    }

    /** Its reasons and findings. */
    method AddCounts(x: Outcome)
      modifies `raw
      ensures exists reasons, interior, found :: raw == old(raw).(reasons := reasons, interiorReasons := interior, inspected := found)
      ensures raw.reasons == if x.reason != "" then Bumped(old(raw).reasons, x.reason) else old(raw).reasons
      ensures AddedUp(old(raw).interiorReasons, x.reasons, raw.interiorReasons)
      ensures Together(old(raw).inspected, x.findings, raw.inspected)
    {
      if x.reason != "" { raw := raw.(reasons := Bumped(raw.reasons, x.reason)); }
      var found := Merge(raw.inspected, x.findings);
      var interior := AddAll(raw.interiorReasons, x.reasons);
      raw := raw.(inspected := found, interiorReasons := interior);
    }

    /** Counts the result of one member. */
    method Add(m: Member, x: Outcome)
      requires Valid()
      modifies this
      ensures Valid() && added == old(added) + [(m, x)] && all == old(all)
    {
      ghost var was, before := added, raw;
      MoreCounted(raw, added, (m, x));
      AddSums(m, x);
      AddCounts(x);
      MoreExplained(before, raw, was, (m, x));
      MoreFound(start, was, before.inspected, (m, x), raw.inspected);
      MoreTallied(before, raw, start, was, (m, x));
      added := added + [(m, x)];
    }

    /** Once every member has its result, the counts add up, and the census is accepted against any plan that
        admits what was read. */
    lemma Adds(planned: int)
      requires Valid() && |added| == |all| && raw.fully + raw.partly <= planned <= raw.members
      ensures raw.fully + raw.partly + raw.unread == raw.members && raw.partial <= raw.archivesOpened <= raw.members
      ensures Agrees(CensusOf(raw), raw.members, planned)
    {
      StatesAddUp(added);
      PlannedIsAccepted(raw, planned);
    }

    /** Then every partition is safe by itself (`PartitionsAreSafe`), and the coverage section tells one to nine
        results of these kinds exactly when there are so many and the counts let the reasons, and beside them the
        read state, be shown: those without a reason; and, where every unread one was given a reason and no fully
        read one, the partly read ones with a reason and those without. */
    lemma Tells()
      requires Valid() && |added| == |all| && AllTallied(start, added)
      ensures AddsUp(raw)
      ensures TellsRest(CensusOf(raw).coverage.unreadByReason)
        <==> Visible(raw.reasons, raw.members) && 1 <= |added| - CountExplained(added) <= 9
      ensures WellReasoned(added) ==>
        var c, seen := CensusOf(raw).coverage, Visible(raw.reasons, raw.members);
        var states, partly := StatesVisible(raw.fully, raw.partly, raw.unread, raw.members), CountPartlyExplained(added);
        && (TellsExplained(c) <==> seen && states && 1 <= partly <= 9)
        && (TellsUnexplained(c) <==> && seen && states && !SomeFew(raw.fully, raw.partly, raw.unread)
                                     && 1 <= CountStates(added, Partly) - partly <= 9)
    {
      StatesAddUp(added);
      if WellReasoned(added) { ReasonsSplit(added); }
      CoverageTells(raw);
    }
  }
}
