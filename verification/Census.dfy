/** The content census: from raw counts to what is published, and the check of a published census against the
    snapshot's size and the plan's. */
module Census {
  import opened Cells
  import opened Occupancy
  import Rates

  /** What was found inside the files. */
  datatype Inspection = Inspection(files: int, empty: int, garbage: int, nearFiles: int,
                                   classes: Cells, encodings: Cells, scripts: Cells, licences: Cells,
                                   hits: Cells, hitFiles: Cells, exact: Cells, near: Cells)

  datatype Raw = Raw(members: int, stored: int, archives: int, archivesOpened: int, partial: int, entries: int, entryBytes: int,
                     fully: int, partly: int, unread: int, storedRead: int, processed: int, readable: int, unreadable: int,
                     extensions: Cells, sizes: Cells, reasons: Cells, interiorReasons: Cells, inspected: Inspection)

  datatype Finding = Finding(name: string, population: Shown, state: State, bands: seq<string>)

  datatype Duplicates = Duplicates(exactRate: Shown, nearRate: Shown, nearState: State, population: Shown, state: State)

  datatype Inventory = Inventory(members: Shown, storedBytes: Shown, byExtension: Partition, sizeBuckets: Partition, archives: Shown)

  datatype Coverage = Coverage(readState: Partition, membersTotal: Shown, bytesRead: Shown, bytesTotal: Shown,
                               processed: Shown, sampled: bool, unreadByReason: Partition, limited: bool)

  datatype Interiors = Interiors(state: State, population: Shown, archivesOpened: Shown, partial: Shown, entries: Shown,
                                 entryBytes: Shown, unreadByReason: Partition)

  datatype Inspected = Inspected(byClass: Partition, detectors: seq<Finding>, licences: seq<Finding>, duplicates: Duplicates,
                                 encodings: Partition, scripts: Partition, emptyFiles: Finding, garbageFiles: Finding)

  datatype Census = Census(version: string, depth: string, inventory: Inventory, coverage: Coverage, interiors: Interiors, inspected: Inspected)

  const VERSION := "content_census_v1"
  const COMPLETE := "content_census_complete_v1"
  const SAMPLED := "content_census_sampled_v1"

  const DETECTORS: seq<string> := ["email", "phone", "credential_like"]
  const FAMILIES: seq<string> := ["mit", "apache_2", "bsd", "gpl", "lgpl", "agpl", "mpl", "cc_by", "cc_by_sa", "cc_by_nc",
                                  "cc0", "unlicense", "proprietary_notice", "unknown_licence_text"]

  // ------------------------------------------------------------------ what is published

  function States(r: Raw): Cells
  {
    map[FULLY := r.fully, PARTLY := r.partly, UNREAD := r.unread]
  }

  ghost function CoverageOf(r: Raw): Coverage
  {
    var states := PartitionOf(States(r), r.members, true);
    var exact := states.state == Checked && r.fully + r.partly >= 10 && r.unread >= 10;
    Coverage(states, Population(r.members), ByteCount(r.storedRead, r.fully + r.partly, exact),
             ByteCount(r.stored, r.members, exact), ByteCount(r.processed, r.fully + r.partly, exact),
             r.fully != r.members, PartitionOf(r.reasons, r.members, false),
             r.unreadable > 0 && r.readable < (r.readable + r.unreadable + 9) / 10)
  }

  ghost function InventoryOf(r: Raw): Inventory
  {
    Inventory(Population(r.members), ByteCount(r.stored, r.members, true), PartitionOf(r.extensions, r.members, false),
              PartitionOf(r.sizes, r.members, false), PartCount(r.archives, r.members))
  }

  /** Below ten opened archives, only their band is shown. */
  ghost function InteriorsOf(r: Raw): Interiors
  {
    var state := FindingState(r.archivesOpened);
    if r.archivesOpened < 10 then
      Interiors(state, Population(r.archivesOpened), Absent, Absent, Absent, Absent, Partition(state, Population(r.archivesOpened), []))
    else
      Interiors(state, Population(r.archivesOpened), PartCount(r.archivesOpened, r.archives), PartCount(r.partial, r.archivesOpened),
                Band(CountBand(r.entries)), Band(SizeBucket(r.entryBytes)), PartitionOf(r.interiorReasons, r.archivesOpened, false))
  }

  /** Files that repeat another: of each group of two and more, all but one. */
  ghost function Repeated(counts: Cells): nat
  {
    var groups := Groups(counts);
    MoreThanGroups(groups);
    Sum(groups) - |groups|
  }

  function Groups(counts: Cells): (r: Cells)
    ensures forall k :: k in r <==> k in counts && counts[k] > 1
    ensures forall k :: k in r ==> r[k] == counts[k]
  {
    map k | k in counts && counts[k] > 1 :: counts[k]
  }

  lemma {:induction false} MoreThanGroups(m: Cells)
    requires forall k :: k in m ==> m[k] > 1
    ensures Sum(m) >= |m|
    decreases |m|
  {
    if m != map[] {
      MoreThanGroups(m - {Pick(m)});
      assert m.Keys == (m - {Pick(m)}).Keys + {Pick(m)};
    }
  }

  ghost function DuplicateRate(counts: Cells, n: int): int
  {
    if n <= 0 then 0 else Rates.RateUnits(Repeated(counts), n)
  }

  function FindingOf(name: string, n: int, bands: seq<string>): Finding
  {
    Finding(name, Population(n), FindingState(n), if n >= 10 then bands else [])
  }

  function DetectorsOf(a: Inspection): seq<Finding>
  {
    seq(|DETECTORS|, i requires 0 <= i < |DETECTORS| =>
      FindingOf(DETECTORS[i], a.files, [CountBand(At(a.hitFiles, DETECTORS[i])), CountBand(At(a.hits, DETECTORS[i]))]))
  }

  function LicencesOf(a: Inspection): seq<Finding>
  {
    seq(|FAMILIES|, i requires 0 <= i < |FAMILIES| =>
      FindingOf(FAMILIES[i], a.files, [CountBand(At(a.licences, FAMILIES[i]))]))
  }

  ghost function DuplicatesOf(a: Inspection): Duplicates
  {
    var n := a.files;
    Duplicates(if n >= 10 then Exact(DuplicateRate(a.exact, n)) else Absent,
               if n >= 10 && a.nearFiles >= 10 then Exact(DuplicateRate(a.near, n)) else Absent,
               FindingState(a.nearFiles), Population(n), FindingState(n))
  }

  ghost function InspectedOf(a: Inspection): Inspected
  {
    var n := a.files;
    Inspected(PartitionOf(a.classes, n, false), DetectorsOf(a), LicencesOf(a),
              DuplicatesOf(a),
              PartitionOf(a.encodings, n, false), PartitionOf(a.scripts, Sum(a.scripts), false),
              FindingOf("", n, [CountBand(a.empty)]), FindingOf("", n, [CountBand(a.garbage)]))
  }

  /** Only the band of the number of files. */
  function Hidden(s: Inspected, n: int): Inspected
  {
    var p := Band(CountBand(n));
    var none := Partition(Suppressed, p, []);
    var finding := Finding("", p, Suppressed, []);
    Inspected(none, HiddenFindings(s.detectors, p), HiddenFindings(s.licences, p),
              Duplicates(Absent, Absent, Suppressed, p, Suppressed), none, none, finding, finding)
  }

  function HiddenFindings(fs: seq<Finding>, p: Shown): (r: seq<Finding>)
    ensures |r| == |fs| && forall i :: 0 <= i < |fs| ==> r[i] == Finding(fs[i].name, p, Suppressed, [])
  {
    seq(|fs|, i requires 0 <= i < |fs| => Finding(fs[i].name, p, Suppressed, []))
  }

  ghost function CensusOf(r: Raw): Census
  {
    var inspected := InspectedOf(r.inspected);
    Census(VERSION, if r.fully == r.members then COMPLETE else SAMPLED, InventoryOf(r), CoverageOf(r), InteriorsOf(r),
           if 0 < r.archivesOpened < 10 then Hidden(inspected, r.inspected.files) else inspected)
  }

  // ------------------------------------------------------------------ what it does not tell

  /** The counts that one to nine opened archives must not influence. */
  predicate SameOutside(r: Raw, s: Raw)
  {
    s == r.(partial := s.partial, entries := s.entries, entryBytes := s.entryBytes, interiorReasons := s.interiorReasons,
            inspected := s.inspected)
  }

  lemma HiddenTellsBandOnly(a: Inspection, b: Inspection)
    requires CountBand(a.files) == CountBand(b.files)
    ensures Hidden(InspectedOf(a), a.files) == Hidden(InspectedOf(b), b.files)
  {
    var p := Band(CountBand(a.files));
    assert HiddenFindings(DetectorsOf(a), p) == HiddenFindings(DetectorsOf(b), p);
    assert HiddenFindings(LicencesOf(a), p) == HiddenFindings(LicencesOf(b), p);
  }

  /** With one to nine archives opened, whatever was found inside files shows in nothing but the band of their
      number, and nothing of what the archives held shows at all. */
  lemma NonInterference(r: Raw, s: Raw)
    requires SameOutside(r, s) && 1 <= r.archivesOpened <= 9 && CountBand(r.inspected.files) == CountBand(s.inspected.files)
    ensures CensusOf(r) == CensusOf(s)
  {
    HiddenTellsBandOnly(r.inspected, s.inspected);
  }

  predicate NonNegative(m: Cells)
  {
    forall k :: k in m ==> m[k] >= 0
  }

  /** Every file has one class and one encoding. */
  ghost predicate Tallied(a: Inspection)
  {
    && NonNegative(a.classes) && NonNegative(a.encodings) && NonNegative(a.scripts)
    && Sum(a.classes) == Sum(a.encodings) == a.files
  }

  /** Every member has one extension, one size and one read state. */
  ghost predicate AddsUp(r: Raw)
  {
    && NonNegative(r.extensions) && NonNegative(r.sizes) && NonNegative(States(r))
    && NonNegative(r.reasons) && NonNegative(r.interiorReasons) && Tallied(r.inspected)
    && Sum(r.extensions) == Sum(r.sizes) == r.fully + r.partly + r.unread == r.members
  }

  /** Nothing is shown, or two cells or more of ten or more, which make up the whole population of `n` and
      leave no rest to tell. */
  predicate ShowsWhole(p: Partition, n: int)
  {
    IsSafe(p, n) && (p.state == Checked ==> p.population == Exact(n)) && !TellsRest(p)
  }

  /** Every partition of a census shows two cells or more of ten or more, or none. By extension, size, read state,
      class, encoding and script they make up the population; by reason, a rest of one to nine is told exactly when
      the counts let the reasons be shown. */
  lemma PartitionsAreSafe(r: Raw)
    requires AddsUp(r)
    ensures var c := CensusOf(r);
      && ShowsWhole(c.inventory.byExtension, r.members) && ShowsWhole(c.inventory.sizeBuckets, r.members)
      && ShowsWhole(c.coverage.readState, r.members)
      && ShowsWhole(c.inspected.byClass, r.inspected.files) && ShowsWhole(c.inspected.encodings, r.inspected.files)
      && ShowsWhole(c.inspected.scripts, Sum(r.inspected.scripts))
    ensures var p := CensusOf(r).coverage.unreadByReason;
      IsSafe(p, Sum(r.reasons)) && (TellsRest(p) <==> Visible(r.reasons, r.members) && 1 <= r.members - Sum(r.reasons) <= 9)
    ensures var p := CensusOf(r).interiors.unreadByReason;
      && IsSafe(p, Sum(r.interiorReasons))
      && (TellsRest(p)
          <==> Visible(r.interiorReasons, r.archivesOpened) && 1 <= r.archivesOpened - Sum(r.interiorReasons) <= 9)
  {
    SumOfStates(States(r));
    MakesUp(r.extensions, r.members, false);
    MakesUp(r.sizes, r.members, false);
    MakesUp(States(r), r.members, true);
    FilesMakeUp(r);
    Published(r.reasons, r.members, false);
    RestTold(r.reasons, r.members);
    Published(r.interiorReasons, r.archivesOpened, false);
    RestTold(r.interiorReasons, r.archivesOpened);
  }

  lemma FilesMakeUp(r: Raw)
    requires Tallied(r.inspected)
    ensures var s := CensusOf(r).inspected;
      && ShowsWhole(s.byClass, r.inspected.files) && ShowsWhole(s.encodings, r.inspected.files)
      && ShowsWhole(s.scripts, Sum(r.inspected.scripts))
  {
    InspectedMakeUp(r.inspected);
  }

  lemma InspectedMakeUp(a: Inspection)
    requires Tallied(a)
    ensures var s := InspectedOf(a);
      ShowsWhole(s.byClass, a.files) && ShowsWhole(s.encodings, a.files) && ShowsWhole(s.scripts, Sum(a.scripts))
  {
    MakesUp(a.classes, a.files, false);
    MakesUp(a.encodings, a.files, false);
    MakesUp(a.scripts, Sum(a.scripts), false);
  }

  /** Counts that make up the population. */
  lemma MakesUp(counts: Cells, population: int, readState: bool)
    requires NonNegative(counts) && Sum(counts) == population && (readState ==> counts.Keys <= {FULLY, PARTLY, UNREAD})
    ensures ShowsWhole(PartitionOf(counts, population, readState), population)
  {
    Published(counts, population, readState);
  }

  // ------------------------------------------------------------------ checking a published census

  predicate ContainsCount(v: Shown, n: int)
  {
    match v
    case Exact(m) => m == n
    case Absent => false
    case Band(b) =>
      if b == "0" then n == 0
      else if b == "1-9" then 1 <= n <= 9
      else if b == "10-99" then 10 <= n <= 99
      else if b == "100-999" then 100 <= n <= 999
      else b == "1000+" && n >= 1000
  }

  lemma BandContains(n: int)
    requires n >= 0
    ensures ContainsCount(Band(CountBand(n)), n) && ContainsCount(Population(n), n)
  {
    var b := CountBand(n);
    assert n == 0 ==> b == "0";
    assert 1 <= n < 10 ==> b == "1-9" && b != "0";
    assert 10 <= n < 100 ==> b == "10-99" && b[0] == '1' && b[1] == '0';
    assert 100 <= n < 1000 ==> b == "100-999" && b[2] == '0';
    assert 1000 <= n ==> b == "1000+" && b[3] == '0';
  }

  datatype Verdict = Accepted | Changed | Unsupported

  /** Whether the cells of a published read state agree with the sizes. */
  method ValidateCells(cells: seq<Cell>, members: int, planned: int) returns (verdict: Verdict)
    ensures verdict == Accepted <==> CellsAgree(cells, members, planned)
  {
    var total, read, unread := 0, 0, 0;
    var seen: set<string> := {};
    var i := 0;
    while i < |cells|
      invariant i <= |cells| && total == read + unread
      invariant read == Read(cells[..i]) && total == Members(cells[..i])
      invariant seen == set k | 0 <= k < i :: cells[k].name
      invariant forall k :: 0 <= k < i ==> CellAgrees(cells, members, k)
    {
      var n := cells[i].members;
      assert cells[..i + 1] == cells[..i] + [cells[i]];
      MembersJoin(cells[..i], cells[i]);
      if n < 10 || n > members - total || cells[i].name in seen {
        assert !CellAgrees(cells, members, i);
        return Changed;
      }
      seen := seen + {cells[i].name};
      total := total + n;
      if cells[i].name in {FULLY, PARTLY, OTHER} {
        read := read + n;
      } else if cells[i].name == UNREAD {
        unread := unread + n;
      } else {
        assert !CellAgrees(cells, members, i);
        return Unsupported;
      }
      i := i + 1;
    }
    assert cells[..i] == cells;
    verdict := if total != members || read > planned || unread < members - planned then Changed else Accepted;
  }

  method ValidateCensusCoverage(c: Census, members: int, planned: int) returns (verdict: Verdict)
    ensures verdict == Accepted <==> Agrees(c, members, planned)
  {
    if members < 0 || planned < 0 || planned > members || c.version != VERSION
       || !ContainsCount(c.inventory.members, members) || !ContainsCount(c.coverage.membersTotal, members) {
      return Changed;
    }
    if c.depth == COMPLETE {
      if planned != members || c.coverage.sampled { return Changed; }
    } else if c.depth == SAMPLED {
      if !c.coverage.sampled { return Changed; }
    } else {
      return Unsupported;
    }
    var p := c.coverage.readState;
    if p.state == Suppressed || p.state == NotChecked { return Accepted; }
    if !ContainsCount(p.population, members) { return Changed; }
    verdict := ValidateCells(p.cells, members, planned);
  }

  predicate Agrees(c: Census, members: int, planned: int)
  {
    && 0 <= planned <= members && c.version == VERSION
    && ContainsCount(c.inventory.members, members) && ContainsCount(c.coverage.membersTotal, members)
    && ((c.depth == COMPLETE && planned == members && !c.coverage.sampled) || (c.depth == SAMPLED && c.coverage.sampled))
    && (c.coverage.readState.state == Checked ==>
          ContainsCount(c.coverage.readState.population, members) && CellsAgree(c.coverage.readState.cells, members, planned))
  }

  /** The members of the cells that were read. */
  function Read(cells: seq<Cell>): int
  {
    if cells == [] then 0 else (if cells[0].name == UNREAD then 0 else cells[0].members) + Read(cells[1..])
  }

  lemma {:induction false} MembersJoin(cells: seq<Cell>, c: Cell)
    ensures Members(cells + [c]) == Members(cells) + c.members
    ensures Read(cells + [c]) == Read(cells) + if c.name == UNREAD then 0 else c.members
  {
    if cells != [] {
      assert (cells + [c])[1..] == cells[1..] + [c];
      MembersJoin(cells[1..], c);
    }
  }

  predicate CellAgrees(cells: seq<Cell>, members: int, i: int)
    requires 0 <= i < |cells|
  {
    && cells[i].members >= 10 && Members(cells[..i]) + cells[i].members <= members
    && (forall k :: 0 <= k < i ==> cells[k].name != cells[i].name)
    && IsState(cells[i].name)
  }

  predicate IsState(name: string)
  {
    name == FULLY || name == PARTLY || name == OTHER || name == UNREAD
  }

  predicate CellsAgree(cells: seq<Cell>, members: int, planned: int)
  {
    && (forall i :: 0 <= i < |cells| ==> CellAgrees(cells, members, i))
    && Members(cells) == members && Read(cells) <= planned && members - Read(cells) >= members - planned
  }

  // ------------------------------------------------------------------ the check accepts what is built

  lemma {:induction false} ReadSum(m: Cells, names: seq<string>, cells: seq<Cell>)
    requires NamesAll(m, names) && |cells| == |names|
    requires forall i :: 0 <= i < |cells| ==> cells[i] == Cell(names[i], m[names[i]])
    ensures Read(cells) == Sum(m) - At(m, UNREAD)
    decreases |names|
  {
    if names == [] {
      assert m.Keys == {};
    } else {
      SumRemove(m, names[0]);
      ReadSum(m - {names[0]}, names[1..], cells[1..]);
    }
  }

  lemma {:induction false} MembersPrefix(cells: seq<Cell>, i: nat)
    requires i <= |cells| && forall k :: 0 <= k < |cells| ==> cells[k].members >= 0
    ensures Members(cells[..i]) <= Members(cells)
    decreases |cells| - i
  {
    if i < |cells| {
      assert cells[..i + 1] == cells[..i] + [cells[i]];
      MembersJoin(cells[..i], cells[i]);
      MembersPrefix(cells, i + 1);
    } else {
      assert cells[..i] == cells;
    }
  }

  /** Where two cells or more are shown, the unread members keep a cell of their own. */
  lemma StatesShown(r: Raw)
    requires r.fully >= 0 && r.partly >= 0 && r.unread >= 0
    ensures var m := Merged(States(r), true);
      && Sum(m) == r.fully + r.partly + r.unread
      && (forall k :: k in m ==> IsState(k)) && (|m| >= 2 ==> At(m, UNREAD) == r.unread)
  {
    var cells := Positive(States(r));
    MergedKeeps(States(r), true);
    SumOfStates(States(r));
    if LowMap(cells) {
      StatesMerge(cells);
      TwoStates(At(cells, FULLY) + At(cells, PARTLY), At(cells, UNREAD));
    }
  }

  lemma Room(cells: seq<Cell>, i: nat)
    requires i < |cells| && forall k :: 0 <= k < |cells| ==> cells[k].members >= 0
    ensures Members(cells[..i]) + cells[i].members <= Members(cells)
  {
    assert cells[..i + 1] == cells[..i] + [cells[i]];
    MembersJoin(cells[..i], cells[i]);
    MembersPrefix(cells, i + 1);
  }

  lemma ListAgrees(cells: seq<Cell>, members: int, planned: int)
    requires forall i :: 0 <= i < |cells| ==> cells[i].members >= 10
    requires forall i :: 0 <= i < |cells| ==> IsState(cells[i].name)
    requires forall i, j :: 0 <= i < j < |cells| ==> cells[i].name != cells[j].name
    requires Members(cells) == members
    ensures CellsAgree(cells, members, planned) <==> Read(cells) <= planned
  {
    forall i | 0 <= i < |cells| ensures CellAgrees(cells, members, i) {
      Room(cells, i);
    }
  }

  lemma ListingRead(m: Cells)
    ensures Read(Listing(m, Names(m))) == Sum(m) - At(m, UNREAD)
  {
    ReadSum(m, Names(m), Listing(m, Names(m)));
  }

  lemma CellsAgreeWhen(m: Cells, members: int, planned: int)
    requires (forall k :: k in m ==> m[k] >= 10 && IsState(k)) && Sum(m) == members
    ensures CellsAgree(Listing(m, Names(m)), members, planned) <==> members - At(m, UNREAD) <= planned
  {
    var cells := Listing(m, Names(m));
    ListingMeans(m);
    ListingRead(m);
    ListAgrees(cells, members, planned);
  }

  lemma CellsOfStates(r: Raw, planned: int)
    requires r.fully >= 0 && r.partly >= 0 && r.unread >= 0 && r.members == r.fully + r.partly + r.unread
    requires PartitionOf(States(r), r.members, true).state == Checked
    ensures CellsAgree(PartitionOf(States(r), r.members, true).cells, r.members, planned) <==> r.fully + r.partly <= planned
  {
    MergedKeeps(States(r), true);
    StatesShown(r);
    CellsAgreeWhen(Merged(States(r), true), r.members, planned);
  }

  /** A census built from counts that add up is accepted exactly when the plan admits what was read. */
  lemma AcceptedExactly(r: Raw, planned: int)
    requires r.fully >= 0 && r.partly >= 0 && r.unread >= 0 && r.members == r.fully + r.partly + r.unread
    ensures Agrees(CensusOf(r), r.members, planned) <==>
      && 0 <= planned <= r.members
      && (r.fully == r.members ==> planned == r.members)
      && (StatesVisible(r.fully, r.partly, r.unread, r.members) ==> r.fully + r.partly <= planned)
  {
    BandContains(r.members);
    StatesShownExactly(States(r), r.fully, r.partly, r.unread, r.members);
    if PartitionOf(States(r), r.members, true).state == Checked { CellsOfStates(r, planned); }
  }

  /** So it is accepted whenever every member that was read was planned. */
  lemma PlannedIsAccepted(r: Raw, planned: int)
    requires r.fully >= 0 && r.partly >= 0 && r.unread >= 0 && r.members == r.fully + r.partly + r.unread
    requires r.fully + r.partly <= planned <= r.members
    ensures Agrees(CensusOf(r), r.members, planned)
  {
    AcceptedExactly(r, planned);
  }
}
