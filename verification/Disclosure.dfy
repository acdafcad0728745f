/** What a published census tells of small counts: which differences between the numbers it shows are one to
    nine, and which counts its rates stand for, exactly when; and inputs for which it does. */
module Disclosure {
  import opened Cells
  import opened Occupancy
  import opened Census
  import Rates

  // ------------------------------------------------------------------ reasons beside the read state

  /** Both are shown, and the reasons count one to nine more than the unread members: that many read members have
      a reason, when every unread one has. */
  predicate TellsExplained(c: Coverage)
  {
    && c.unreadByReason.state == Checked && c.readState.state == Checked
    && 1 <= Members(c.unreadByReason.cells) - CellOf(c.readState.cells, UNREAD) <= 9
  }

  /** Both are shown, the read state with every state for itself, and the reasons count one to nine fewer than the
      members not fully read: that many of them have no reason, when no fully read one has. */
  predicate TellsUnexplained(c: Coverage)
  {
    && c.unreadByReason.state == Checked && c.readState.state == Checked && CellOf(c.readState.cells, OTHER) == 0
    && 1 <= CellOf(c.readState.cells, PARTLY) + CellOf(c.readState.cells, UNREAD) - Members(c.unreadByReason.cells) <= 9
  }

  lemma CellsOfState(r: Raw)
    requires r.fully >= 0 && r.partly >= 0 && r.unread >= 0
    requires StatesVisible(r.fully, r.partly, r.unread, r.members)
    ensures var p, few := CensusOf(r).coverage.readState, SomeFew(r.fully, r.partly, r.unread);
      && p.state == Checked && CellOf(p.cells, UNREAD) == r.unread
      && CellOf(p.cells, OTHER) == (if few then r.fully + r.partly else 0)
      && CellOf(p.cells, PARTLY) == (if few then 0 else r.partly)
  {
    StatesShownExactly(States(r), r.fully, r.partly, r.unread, r.members);
    var m := Merged(States(r), true);
    CellShown(m, UNREAD);
    CellShown(m, OTHER);
    CellShown(m, PARTLY);
    StatesMerged(States(r), r.fully, r.partly, r.unread, r.members);
  }

  lemma StatesMerged(states: Cells, fully: int, partly: int, unread: int, population: int)
    requires states == map[FULLY := fully, PARTLY := partly, UNREAD := unread] && fully >= 0 && partly >= 0 && unread >= 0
    requires StatesVisible(fully, partly, unread, population)
    ensures var m, few := Merged(states, true), SomeFew(fully, partly, unread);
      && At(m, UNREAD) == unread && At(m, OTHER) == (if few then fully + partly else 0)
      && At(m, PARTLY) == (if few then 0 else partly)
  {
    StatesMergedAs(states, fully, partly, unread);
    if !SomeFew(fully, partly, unread) { assert OTHER !in Positive(states); }
  }

  lemma ReasonsOf(r: Raw)
    requires NonNegative(r.reasons)
    ensures var p := CensusOf(r).coverage.unreadByReason;
      && (p.state == Checked <==> Visible(r.reasons, r.members)) && (p.state == Checked ==> Members(p.cells) == Sum(r.reasons))
  {
    ShownExactly(r.reasons, r.members);
    Published(r.reasons, r.members, false);
  }

  /** What the coverage section tells of one to nine members, by its populations, reasons and read state taken
      together: those without a reason; the read ones with a reason; those not fully read without one. */
  lemma CoverageTells(r: Raw)
    requires AddsUp(r)
    ensures var c, told, seen := CensusOf(r).coverage, Sum(r.reasons), Visible(r.reasons, r.members);
      && (TellsRest(c.unreadByReason) <==> seen && 1 <= r.members - told <= 9)
      && (TellsExplained(c) <==> seen && StatesVisible(r.fully, r.partly, r.unread, r.members) && 1 <= told - r.unread <= 9)
      && (TellsUnexplained(c)
          <==> && seen && StatesVisible(r.fully, r.partly, r.unread, r.members) && !SomeFew(r.fully, r.partly, r.unread)
               && 1 <= r.partly + r.unread - told <= 9)
  {
    StatesNatural(r);
    RestTold(r.reasons, r.members);
    ReasonsOf(r);
    StatesShownExactly(States(r), r.fully, r.partly, r.unread, r.members);
    if StatesVisible(r.fully, r.partly, r.unread, r.members) { CellsOfState(r); }
  }

  lemma StatesNatural(r: Raw)
    requires NonNegative(States(r))
    ensures r.fully >= 0 && r.partly >= 0 && r.unread >= 0
  {
    assert States(r)[FULLY] == r.fully && States(r)[PARTLY] == r.partly && States(r)[UNREAD] == r.unread;
  }

  /** Where just the members not fully read have a reason, one to nine partly read ones are told exactly when the
      reasons are shown beside ten unread and ten read members; and one to nine fully read ones exactly when the
      reasons are shown. */
  lemma PartlyReadTold(r: Raw)
    requires AddsUp(r) && Sum(r.reasons) == r.partly + r.unread
    ensures var c, seen := CensusOf(r).coverage, Visible(r.reasons, r.members);
      && (TellsExplained(c) <==> seen && 1 <= r.partly <= 9 && r.unread >= 10 && r.fully + r.partly >= 10)
      && (TellsRest(c.unreadByReason) <==> seen && 1 <= r.fully <= 9)
      && !TellsUnexplained(c)
  {
    CoverageTells(r);
  }

  lemma TwoReasons(m: Cells, a: int, b: int)
    requires m == map["not_sampled" := a, "read_error" := b] && a >= 10 && b >= 10
    ensures Sum(m) == a + b && (forall population :: population >= 10 ==> Visible(m, population))
  {
    SumRemove(m, "not_sampled");
    assert m - {"not_sampled"} == map["read_error" := b];
    OneCell("read_error", b);
    assert Positive(m) == m && Large(m) == m && m.Keys == {"not_sampled", "read_error"};
  }

  /** Of thirty members, three were read: the read state hides them, the reasons of the others tell them. */
  lemma ReasonsTellThreeRead(r: Raw)
    requires AddsUp(r) && r.members == 30 && r.fully == 3 && r.partly == 0 && r.unread == 27
    requires r.reasons == map["not_sampled" := 17, "read_error" := 10]
    ensures var c := CensusOf(r).coverage;
      && c.readState.state == Suppressed && TellsRest(c.unreadByReason)
      && c.unreadByReason.population == Exact(30) && Members(c.unreadByReason.cells) == 27
  {
    TwoReasons(r.reasons, 17, 10);
    CoverageTells(r);
    ReasonsOf(r);
    StatesShownExactly(States(r), 3, 0, 27, 30);
  }

  /** Of forty-three members, three were read in part: the read state takes them together with those fully read,
      the reasons beside it tell them. */
  lemma ReasonsTellThreePartly(r: Raw)
    requires AddsUp(r) && r.members == 43 && r.fully == 20 && r.partly == 3 && r.unread == 20
    requires r.reasons == map["not_sampled" := 12, "read_error" := 11]
    ensures var c := CensusOf(r).coverage;
      && CellOf(c.readState.cells, OTHER) == 23 && CellOf(c.readState.cells, UNREAD) == 20
      && Members(c.unreadByReason.cells) == 23 && TellsExplained(c) && !TellsRest(c.unreadByReason)
  {
    TwoReasons(r.reasons, 12, 11);
    CoverageTells(r);
    ReasonsOf(r);
    CellsOfState(r);
  }

  // ------------------------------------------------------------------ populations beside one another

  /** Both numbers are shown, and the part falls short of the whole by one to nine. */
  predicate TellsLess(part: Shown, whole: Shown)
  {
    part.Exact? && whole.Exact? && 1 <= whole.n - part.n <= 9
  }

  /** Which of the numbers of archives tell a small difference. Those that are held back beside their whole never
      do; but the population of the interiors is not held back beside the archives, nor beside the members. */
  lemma ArchivesTell(r: Raw)
    ensures var c := CensusOf(r);
      && !TellsLess(c.inventory.archives, c.inventory.members)
      && !TellsLess(c.interiors.archivesOpened, c.inventory.archives)
      && !TellsLess(c.interiors.partial, c.interiors.population)
    ensures var c, seen := CensusOf(r), r.archivesOpened >= 10;
      && (TellsLess(c.interiors.population, c.inventory.archives)
          <==> seen && r.members - r.archives >= 10 && 1 <= r.archives - r.archivesOpened <= 9)
      && (TellsLess(c.interiors.population, c.inventory.members) <==> seen && 1 <= r.members - r.archivesOpened <= 9)
  {}

  /** The population of the files is not held back beside the members, nor that of the scripts, which only text
      files have, beside the files. */
  lemma FilesTell(r: Raw)
    ensures var c, seen := CensusOf(r), !(1 <= r.archivesOpened <= 9);
      && (TellsLess(c.inspected.byClass.population, c.inventory.members)
          <==> seen && r.inspected.files >= 10 && 1 <= r.members - r.inspected.files <= 9)
      && (TellsLess(c.inspected.scripts.population, c.inspected.byClass.population)
          <==> seen && Sum(r.inspected.scripts) >= 10 && 1 <= r.inspected.files - Sum(r.inspected.scripts) <= 9)
  {
    InspectedPopulations(r);
  }

  lemma InspectedPopulations(r: Raw)
    ensures var s, a, hidden := CensusOf(r).inspected, r.inspected, 1 <= r.archivesOpened <= 9;
      && s.byClass.population == (if hidden then Band(CountBand(a.files)) else Population(a.files))
      && s.scripts.population == (if hidden then Band(CountBand(a.files)) else Population(Sum(a.scripts)))
      && (!hidden ==> s.encodings == PartitionOf(a.encodings, a.files, false))
  {
    HiddenPopulations(InspectedOf(r.inspected), r.inspected.files);
    OpenPopulations(r.inspected);
  }

  lemma HiddenPopulations(s: Inspected, n: int)
    ensures Hidden(s, n).byClass.population == Hidden(s, n).scripts.population == Band(CountBand(n))
  {}

  lemma OpenPopulations(a: Inspection)
    ensures InspectedOf(a).byClass.population == Population(a.files)
    ensures InspectedOf(a).scripts.population == Population(Sum(a.scripts))
    ensures InspectedOf(a).encodings == PartitionOf(a.encodings, a.files, false)
  {}

  /** Fifteen archives, twelve of them opened: the part is held back, the population of the interiors is not, and
      the three that were not opened are told. */
  lemma UnopenedAreTold(r: Raw)
    requires r.members == 100 && r.archives == 15 && r.archivesOpened == 12
    ensures var c := CensusOf(r);
      && c.inventory.archives == Exact(15) && c.interiors.archivesOpened == Band("10-99") && c.interiors.population == Exact(12)
      && TellsLess(c.interiors.population, c.inventory.archives)
  {
    ArchivesTell(r);
  }

  /** Ninety-five text files and five binary ones: the encodings hide the five, the populations tell them. */
  lemma BinaryFilesAreTold(r: Raw)
    requires r.archivesOpened == 0 && Tallied(r.inspected) && r.inspected.files == 100
    requires r.inspected.encodings == map["utf8" := 95, "binary" := 5] && Sum(r.inspected.scripts) == 95
    ensures var s := CensusOf(r).inspected;
      && s.encodings.state == Suppressed && s.scripts.population == Exact(95) && s.byClass.population == Exact(100)
      && TellsLess(s.scripts.population, s.byClass.population)
  {
    FiveHidden(r.inspected.encodings);
    InspectedPopulations(r);
  }

  lemma FiveHidden(m: Cells)
    requires m == map["utf8" := 95, "binary" := 5]
    ensures PartitionOf(m, 100, false).state == Suppressed
  {
    var large := Large(Positive(m));
    assert Positive(m) == m && large == map["utf8" := 95];
    SumRemove(m, "binary");
    assert m - {"binary"} == large;
    assert large != map[] && forall k :: k in large ==> k == Smallest(large);
    ShownExactly(m, 100);
  }

  /** Thirty members and no archive, twenty-seven of them inspected: the read state hides the other three, the
      populations tell them. */
  lemma UninspectedAreTold(r: Raw)
    requires AddsUp(r) && r.members == 30 && r.archivesOpened == 0 && r.inspected.files == 27 && r.fully == 27 && r.unread == 3
    ensures CensusOf(r).coverage.readState.state == Suppressed
    ensures TellsLess(CensusOf(r).inspected.byClass.population, CensusOf(r).inventory.members)
  {
    StatesNatural(r);
    StatesShownExactly(States(r), r.fully, r.partly, r.unread, 30);
    FilesTell(r);
  }

  // ------------------------------------------------------------------ what the duplicate rates tell

  /** The shown rate is one that a small count among `n` has: one to nine, or one to nine short of all. */
  ghost predicate TellsSmall(shown: Shown, n: int)
  {
    shown.Exact? && n > 0 && exists d: nat :: d <= n && Rates.Small(d, n) && HasRate(d, n, shown.n)
  }

  predicate HasRate(c: nat, n: int, rate: int)
    requires n > 0
  {
    Rates.RateUnits(c, n) == rate
  }

  /** The count `c` has the rate of a small one. */
  predicate RatedSmall(c: nat, n: int)
    requires n >= 10
  {
    Rates.RatedBetween(1, c, 9, n) || Rates.RatedBetween(n - 9, c, n - 1, n)
  }

  lemma SmallByRate(c: nat, n: int)
    requires n >= 10
    ensures TellsSmall(Exact(Rates.RateUnits(c, n)), n) <==> RatedSmall(c, n)
    ensures n < Rates.MILLION ==> (RatedSmall(c, n) <==> Rates.Small(c, n))
  {
    Rates.TellsSmallExactly(c, n);
    var shown := Exact(Rates.RateUnits(c, n));
    if Rates.TellsSmall(c, n) {
      var d: nat :| d <= n && Rates.RateUnits(d, n) == Rates.RateUnits(c, n) && Rates.Small(d, n);
      assert HasRate(d, n, shown.n);
    }
    if TellsSmall(shown, n) {
      var d: nat :| d <= n && Rates.Small(d, n) && HasRate(d, n, shown.n);
      assert Rates.RateUnits(d, n) == Rates.RateUnits(c, n);
    }
  }

  lemma RatesShown(r: Raw)
    ensures var n, d, seen := r.inspected.files, CensusOf(r).inspected.duplicates, !(1 <= r.archivesOpened <= 9);
      && d.exactRate == (if n >= 10 && seen then Exact(Rates.RateUnits(Repeated(r.inspected.exact), n)) else Absent)
      && d.nearRate == if n >= 10 && r.inspected.nearFiles >= 10 && seen
                       then Exact(Rates.RateUnits(Repeated(r.inspected.near), n)) else Absent
  {}

  /** The rates of exact and of near duplicates are published as they are, unless fewer than ten files (eligible
      files) were found or one to nine archives opened. By the rule that null rates are held to they tell a small
      number of duplicates, or of files that repeat no other, exactly when that number has a small one's rate;
      below a million files, when it is small. */
  lemma DuplicateRatesTellSmall(r: Raw)
    ensures var n, d, c := r.inspected.files, CensusOf(r).inspected.duplicates, Repeated(r.inspected.exact);
      && (TellsSmall(d.exactRate, n) <==> n >= 10 && !(1 <= r.archivesOpened <= 9) && RatedSmall(c, n))
      && (10 <= n < Rates.MILLION ==> (RatedSmall(c, n) <==> Rates.Small(c, n)))
    ensures var n, d, c := r.inspected.files, CensusOf(r).inspected.duplicates, Repeated(r.inspected.near);
      && (TellsSmall(d.nearRate, n)
          <==> n >= 10 && r.inspected.nearFiles >= 10 && !(1 <= r.archivesOpened <= 9) && RatedSmall(c, n))
      && (10 <= n < Rates.MILLION ==> (RatedSmall(c, n) <==> Rates.Small(c, n)))
  {
    RatesShown(r);
    if r.inspected.files >= 10 {
      SmallByRate(Repeated(r.inspected.exact), r.inspected.files);
      SmallByRate(Repeated(r.inspected.near), r.inspected.files);
    }
  }

  /** Below a million files, equal rates mean equal numbers of duplicates. */
  lemma DuplicateRateTellsCount(r: Raw, s: Raw)
    requires 10 <= r.inspected.files == s.inspected.files < Rates.MILLION
    requires !(1 <= r.archivesOpened <= 9) && !(1 <= s.archivesOpened <= 9)
    ensures CensusOf(r).inspected.duplicates.exactRate == CensusOf(s).inspected.duplicates.exactRate
      <==> Repeated(r.inspected.exact) == Repeated(s.inspected.exact)
  {
    RatesShown(r);
    RatesShown(s);
    var c, d, n := Repeated(r.inspected.exact), Repeated(s.inspected.exact), r.inspected.files;
    if Rates.RateUnits(c, n) == Rates.RateUnits(d, n) { Rates.RateTellsCount(c, d, n); }
  }

  /** Two equal files among ten. */
  lemma OnePairIsTold(r: Raw)
    requires r.inspected.files == 10 && r.archivesOpened == 0
    requires r.inspected.exact == map["a" := 2, "b" := 1, "c" := 1, "d" := 1, "e" := 1, "f" := 1, "g" := 1, "h" := 1, "i" := 1]
    ensures CensusOf(r).inspected.duplicates.exactRate == Exact(100_000) && TellsSmall(Exact(100_000), 10)
  {
    assert Groups(r.inspected.exact) == map["a" := 2];
    OneCell("a", 2);
    SmallByRate(1, 10);
  }

  /** Five contents, each in twenty copies: the rate is that of the ninety-five that repeat, and of no other count. */
  lemma FiveContentsAreTold(r: Raw)
    requires r.inspected.files == 100 && r.archivesOpened == 0
    requires r.inspected.exact == map["a" := 20, "b" := 20, "c" := 20, "d" := 20, "e" := 20]
    ensures CensusOf(r).inspected.duplicates.exactRate == Exact(950_000) && TellsSmall(Exact(950_000), 100)
  {
    TwentyEach(r.inspected.exact);
    SmallByRate(95, 100);
  }

  lemma TwentyEach(m: Cells)
    requires m == map["a" := 20, "b" := 20, "c" := 20, "d" := 20, "e" := 20]
    ensures Repeated(m) == 95
  {
    assert Groups(m) == m && m.Keys == {"a", "b", "c", "d", "e"};
    AllTwenty(m);
  }

  lemma {:induction false} AllTwenty(m: Cells)
    requires forall k :: k in m ==> m[k] == 20
    ensures Sum(m) == 20 * |m|
    decreases |m|
  {
    if m != map[] {
      AllTwenty(m - {Pick(m)});
      assert m.Keys == (m - {Pick(m)}).Keys + {Pick(m)};
    }
  }
}
