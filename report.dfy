/**
 * The data `write_report` assembles before writing anything: the map from
 * each family to the names of its member genomes, the flags it hands to the
 * three queries, one summary row per genome, the family-specific primers
 * gathered per family, the universal primers of every genome, and the list
 * that ends up in the universal primer file.
 */
module Report {
  import opened Wrappers
  import opened PyStr
  import opened Primers
  import opened Classifier
  import opened Genome

  // ------------------------------------------------------------------
  // The flags of the report's queries

  /**
   * The flags `write_report` queries with. It passes `blastfilter` as the
   * third positional argument, which is the oligo flag, and never passes the
   * BLAST flag; CDS overlap is required unless `nocds` is set.
   */
  function ReportFlags(nocds: bool, gc3Prime: bool, singleProduct: bool, blastfilter: bool): (f: QueryFlags)
    ensures forall p :: PassesEnabled(p, f) <==>
              (nocds || p.cdsOverlap) && (!gc3Prime || p.gc3PrimeValid) && (!blastfilter || p.oligoValid)
              && (!singleProduct || p.negativeControlAmplimers == Some(1))
    ensures forall p: Primer, b: bool :: PassesEnabled(p.(blastPass := b), f) == PassesEnabled(p, f)
  {
    QueryFlags(!nocds, gc3Prime, blastfilter, false, singleProduct)
  }

  // ------------------------------------------------------------------
  // Family -> member names

  /** Every genome has a family list; iterating over a missing one raises TypeError. */
  predicate HasFamilies(gdlist: seq<GenomeData>) {
    forall g :: g in gdlist ==> g.families.Some?
  }

  predicate HasFamiliesUpTo(gdlist: seq<GenomeData>, k: nat) {
    forall i :: 0 <= i < k && i < |gdlist| ==> gdlist[i].families.Some?
  }

  /** The families listed by the first `k` genomes. */
  function FamilyNamesUpTo(gdlist: seq<GenomeData>, k: nat): set<string>
    requires k <= |gdlist| && HasFamiliesUpTo(gdlist, k)
  {
    set i, f | 0 <= i < k && f in gdlist[i].families.value :: f
  }

  /** The names of the first `k` genomes that list family `f`. */
  function MembersUpTo(gdlist: seq<GenomeData>, k: nat, f: string): set<string>
    requires k <= |gdlist| && HasFamiliesUpTo(gdlist, k)
  {
    set i | 0 <= i < k && f in gdlist[i].families.value :: gdlist[i].name
  }

  function FamilyMapUpTo(gdlist: seq<GenomeData>, k: nat): map<string, set<string>>
    requires k <= |gdlist| && HasFamiliesUpTo(gdlist, k)
  {
    map f | f in FamilyNamesUpTo(gdlist, k) :: MembersUpTo(gdlist, k, f)
  }

  /**
   * The `families` dictionary of `write_report`: its keys are the families
   * some genome lists, and each maps to the names of exactly the genomes
   * whose list contains it.
   */
  function FamilyMap(gdlist: seq<GenomeData>): (m: map<string, set<string>>)
    requires HasFamilies(gdlist)
    ensures forall f :: f in m <==> exists g :: g in gdlist && f in g.families.value
    ensures forall f, n :: f in m ==> (n in m[f] <==> exists g :: g in gdlist && g.name == n && f in g.families.value)
  {
    var m := FamilyMapUpTo(gdlist, |gdlist|);
    assert forall f :: f in m <==> exists g :: g in gdlist && f in g.families.value by {
      forall f ensures f in m <==> exists g :: g in gdlist && f in g.families.value {
        if exists g :: g in gdlist && f in g.families.value {
          var g :| g in gdlist && f in g.families.value;
          var i :| 0 <= i < |gdlist| && gdlist[i] == g;
          assert f in FamilyNamesUpTo(gdlist, |gdlist|);
        }
      }
    }
    assert forall f, n :: f in m ==> (n in m[f] <==> exists g :: g in gdlist && g.name == n && f in g.families.value) by {
      forall f, n | f in m ensures n in m[f] <==> exists g :: g in gdlist && g.name == n && f in g.families.value {
        if exists g :: g in gdlist && g.name == n && f in g.families.value {
          var g :| g in gdlist && g.name == n && f in g.families.value;
          var i :| 0 <= i < |gdlist| && gdlist[i] == g;
          assert n in MembersUpTo(gdlist, |gdlist|, f);
        }
      }
    }
    m
  }

  /** Every family a genome lists is a key of the family map. */
  lemma FamilyMapCovers(gdlist: seq<GenomeData>)
    requires HasFamilies(gdlist)
    ensures forall g :: g in gdlist ==> forall f :: f in g.families.value ==> f in FamilyMap(gdlist)
  {
  }

  /** One more genome adds its name to each family it lists. */
  lemma FamilyMapStep(gdlist: seq<GenomeData>, k: nat, m: map<string, set<string>>)
    requires k < |gdlist| && HasFamiliesUpTo(gdlist, k + 1)
    requires var m0, fams := FamilyMapUpTo(gdlist, k), gdlist[k].families.value;
             (forall f :: f in m <==> f in m0 || f in fams)
             && forall f :: f in m ==> m[f] == (if f in m0 then m0[f] else {}) + (if f in fams then {gdlist[k].name} else {})
    ensures m == FamilyMapUpTo(gdlist, k + 1)
  {
    FamilyKeysStep(gdlist, k);
    FamilyMembersStep(gdlist, k);
    SameAdditions(m, FamilyMapUpTo(gdlist, k + 1), FamilyMapUpTo(gdlist, k), gdlist[k].families.value, gdlist[k].name);
  }

  lemma FamilyKeysStep(gdlist: seq<GenomeData>, k: nat)
    requires k < |gdlist| && HasFamiliesUpTo(gdlist, k + 1)
    ensures forall f :: f in FamilyMapUpTo(gdlist, k + 1) <==> f in FamilyMapUpTo(gdlist, k) || f in gdlist[k].families.value
  {
    forall f | f in gdlist[k].families.value ensures f in FamilyNamesUpTo(gdlist, k + 1) {
      assert 0 <= k < k + 1 && f in gdlist[k].families.value;
    }
  }

  lemma FamilyMembersStep(gdlist: seq<GenomeData>, k: nat)
    requires k < |gdlist| && HasFamiliesUpTo(gdlist, k + 1)
    ensures forall f :: MembersUpTo(gdlist, k + 1, f)
                        == MembersUpTo(gdlist, k, f) + (if f in gdlist[k].families.value then {gdlist[k].name} else {})
  {
  }

  /** Two maps that add the same name to the same families of one map are equal. */
  lemma SameAdditions(m: map<string, set<string>>, m1: map<string, set<string>>, m0: map<string, set<string>>,
                      fams: seq<string>, name: string)
    requires forall f :: f in m <==> f in m0 || f in fams
    requires forall f :: f in m ==> m[f] == (if f in m0 then m0[f] else {}) + (if f in fams then {name} else {})
    requires forall f :: f in m1 <==> f in m0 || f in fams
    requires forall f :: f in m1 ==> m1[f] == (if f in m0 then m0[f] else {}) + (if f in fams then {name} else {})
    ensures m == m1
  {
    assert m.Keys == m1.Keys;
  }

  /** The inner loop of the family dictionary: `families[family].add(name)` for each family listed. */
  method AddMember(m0: map<string, set<string>>, name: string, fams: seq<string>) returns (m: map<string, set<string>>)
    ensures forall f :: f in m <==> f in m0 || f in fams
    ensures forall f :: f in m ==> m[f] == (if f in m0 then m0[f] else {}) + (if f in fams then {name} else {})
  {
    m := m0;
    for j := 0 to |fams|
      invariant forall f :: f in m <==> f in m0 || f in fams[..j]
      invariant forall f :: f in m ==> m[f] == (if f in m0 then m0[f] else {}) + (if f in fams[..j] then {name} else {})
    {
      assert fams[..j + 1] == fams[..j] + [fams[j]];
      var f := fams[j];
      m := m[f := (if f in m then m[f] else {}) + {name}];
    }
    assert fams[..|fams|] == fams;
  }

  /** The loop of `write_report` that builds the family dictionary. */
  method FamilyMembers(gdlist: seq<GenomeData>) returns (r: Result<map<string, set<string>>, PyError>)
    ensures !HasFamilies(gdlist) ==> r == Err(TypeError)
    ensures HasFamilies(gdlist) ==> r == Ok(FamilyMap(gdlist))
  {
    var m: map<string, set<string>> := map[];
    for k := 0 to |gdlist|
      invariant HasFamiliesUpTo(gdlist, k)
      invariant m == FamilyMapUpTo(gdlist, k)
    {
      var gd := gdlist[k];
      if gd.families.None? {
        assert gd in gdlist;
        return Err(TypeError);
      }
      m := AddMember(m, gd.name, gd.families.value);
      FamilyMapStep(gdlist, k, m);
    }
    assert HasFamilies(gdlist);
    r := Ok(m);
  }

  // ------------------------------------------------------------------
  // Summary rows

  /** `str(x)` of a file name that may be None. */
  function Str(o: Option<string>): (r: string)
    ensures o.None? ==> r == "None"
    ensures o.Some? ==> r == o.value
  {
    match o
    case None => "None"
    case Some(s) => s
  }

  /**
   * One line of the summary table (without its newline): name, families
   * joined by ',', the unique and universal counts, and the sequence, feature
   * and primer file names.
   */
  function SummaryRow(name: string, families: seq<string>, unique: nat, universal: nat,
                      seqFilename: Option<string>, ftFilename: Option<string>, primerFilename: Option<string>): string
  {
    Join([name, Join(families, ","), Decimal(unique), Decimal(universal),
          Str(seqFilename), Str(ftFilename), Str(primerFilename)], "\t")
  }

  predicate TabFree(o: Option<string>) {
    o.Some? ==> '\t' !in o.value
  }

  /**
   * Read back with `split('\t')`, a summary row has seven fields: the name,
   * the family list, two decimal counts that parse back to the unique and
   * universal counts, and the three file names ("None" for a missing one).
   * The family field splits back into the families when none holds ','.
   */
  lemma SummaryRowFields(name: string, families: seq<string>, unique: nat, universal: nat,
                         seqFilename: Option<string>, ftFilename: Option<string>, primerFilename: Option<string>)
    requires '\t' !in name && forall k :: 0 <= k < |families| ==> '\t' !in families[k]
    requires TabFree(seqFilename) && TabFree(ftFilename) && TabFree(primerFilename)
    ensures var fields := Split(SummaryRow(name, families, unique, universal, seqFilename, ftFilename, primerFilename), "\t");
            |fields| == 7 && fields[0] == name && fields[1] == Join(families, ",")
            && AllDigits(fields[2]) && ParseDecimal(fields[2]) == unique
            && AllDigits(fields[3]) && ParseDecimal(fields[3]) == universal
            && fields[4] == Str(seqFilename) && fields[5] == Str(ftFilename) && fields[6] == Str(primerFilename)
    ensures |families| >= 1 && (forall k :: 0 <= k < |families| ==> ',' !in families[k])
            ==> Split(Join(families, ","), ",") == families
  {
    SummaryRowSplit(name, families, unique, universal, seqFilename, ftFilename, primerFilename);
    ParseDecimalOfDecimal(unique);
    ParseDecimalOfDecimal(universal);
    if |families| >= 1 && (forall k :: 0 <= k < |families| ==> ',' !in families[k]) {
      SplitJoin(families, ',');
    }
  }

  /** A summary row splits back on tabs into its seven fields. */
  lemma SummaryRowSplit(name: string, families: seq<string>, unique: nat, universal: nat,
                        seqFilename: Option<string>, ftFilename: Option<string>, primerFilename: Option<string>)
    requires '\t' !in name && forall k :: 0 <= k < |families| ==> '\t' !in families[k]
    requires TabFree(seqFilename) && TabFree(ftFilename) && TabFree(primerFilename)
    ensures Split(SummaryRow(name, families, unique, universal, seqFilename, ftFilename, primerFilename), "\t")
            == [name, Join(families, ","), Decimal(unique), Decimal(universal),
                Str(seqFilename), Str(ftFilename), Str(primerFilename)]
  {
    var fields := [name, Join(families, ","), Decimal(unique), Decimal(universal),
                   Str(seqFilename), Str(ftFilename), Str(primerFilename)];
    NotInJoin(families, ",", '\t');
    assert forall k :: 0 <= k < |Decimal(unique)| ==> IsDigit(Decimal(unique)[k]);
    assert forall k :: 0 <= k < |Decimal(universal)| ==> IsDigit(Decimal(universal)[k]);
    assert '\t' !in Decimal(unique) && '\t' !in Decimal(universal);
    assert '\t' !in "None";
    SplitJoin(fields, '\t');
  }

  // ------------------------------------------------------------------
  // One genome's part of the report

  /** What the loop body of `write_report` computes for one genome. */
  datatype GenomeReport = GenomeReport(
    families: seq<string>,
    unique: seq<Primer>,
    familyLists: seq<seq<Primer>>,  // the family query's result for each entry of `families`
    universal: seq<Primer>,
    row: string)

  /** The family query for each family a genome lists, in list order; AttributeError if one raises. */
  function FamilyLists(name: string, primers: seq<Primer>, fams: seq<string>, members: map<string, set<string>>, flags: QueryFlags)
    : (r: Result<seq<seq<Primer>>, PyError>)
    requires forall f :: f in fams ==> f in members
    ensures r.Err? <==> exists j :: 0 <= j < |fams| && MissingNegativeControl(primers, FamilyExactly(name, members[fams[j]]), flags)
    ensures r.Err? ==> r.error == AttributeError
    ensures r.Ok? ==> |r.value| == |fams|
    ensures r.Ok? ==> forall j :: 0 <= j < |fams| ==>
              FamilyUniquePrimers(name, primers, members[fams[j]], flags).Ok?
              && r.value[j] == FamilyUniquePrimers(name, primers, members[fams[j]], flags).value
  {
    if exists j :: 0 <= j < |fams| && MissingNegativeControl(primers, FamilyExactly(name, members[fams[j]]), flags) then
      Err(AttributeError)
    else
      Ok(seq(|fams|, j requires 0 <= j < |fams| && !MissingNegativeControl(primers, FamilyExactly(name, members[fams[j]]), flags)
                       => FamilyUniquePrimers(name, primers, members[fams[j]], flags).value))
  }

  /**
   * A query of `write_report` raises for the genome: the single-product
   * filter meets a primer without a negative-control count in the unique
   * query, in the family query of one of its families, or in the universal
   * query.
   */
  predicate QueriesRaise(gd: GenomeData, members: map<string, set<string>>, count: int, flags: QueryFlags)
    reads gd
    requires gd.families.Some? && forall f :: f in gd.families.value ==> f in members
  {
    MissingNegativeControl(gd.primers, AmplifiesCount(0), flags)
    || (exists j :: 0 <= j < |gd.families.value|
          && MissingNegativeControl(gd.primers, FamilyExactly(gd.name, members[gd.families.value[j]]), flags))
    || MissingNegativeControl(gd.primers, AmplifiesCount(count), flags)
  }

  /**
   * The three queries for one genome: its unique primers, its
   * family-specific primers for each family it lists, and its universal
   * primers (those amplifying `count` other genomes), with its summary row.
   */
  function GenomeQueries(gd: GenomeData, members: map<string, set<string>>, count: int, flags: QueryFlags)
    : (r: Result<GenomeReport, PyError>)
    reads gd
    requires gd.families.Some? && forall f :: f in gd.families.value ==> f in members
    ensures r.Err? <==> QueriesRaise(gd, members, count, flags)
    ensures r.Err? ==> r.error == AttributeError
    ensures r.Ok? ==> r.value.families == gd.families.value && |r.value.familyLists| == |r.value.families|
  {
    var fams := gd.families.value;
    match UniquePrimers(gd.primers, flags)
    case Err(e) => Err(e)
    case Ok(unique) =>
      match FamilyLists(gd.name, gd.primers, fams, members, flags)
      case Err(e) => Err(e)
      case Ok(lists) =>
        match PrimersAmplifyCount(gd.primers, count, flags)
        case Err(e) => Err(e)
        case Ok(universal) =>
          Ok(GenomeReport(fams, unique, lists, universal,
                          SummaryRow(gd.name, fams, |unique|, |universal|, gd.seqFilename, gd.ftFilename, gd.primerFilename)))
  }

  /**
   * What one genome contributes: its unique and universal primers are those
   * of its primers amplifying no other genome, respectively `count` other
   * genomes, and passing the enabled filters; the list for its `j`-th family
   * holds the primers whose amplified genomes plus itself are that family's
   * members; its row carries the two counts.
   */
  lemma GenomeQueriesMeaning(gd: GenomeData, members: map<string, set<string>>, count: int, flags: QueryFlags, rep: GenomeReport)
    requires gd.families.Some? && forall f :: f in gd.families.value ==> f in members
    requires Ok(rep) == GenomeQueries(gd, members, count, flags)
    ensures forall p :: p in rep.unique <==> p in gd.primers && p.amplifiesOrganism == {} && PassesEnabled(p, flags)
    ensures forall p :: p in rep.universal <==> p in gd.primers && |p.amplifiesOrganism| == count && PassesEnabled(p, flags)
    ensures rep.families == gd.families.value
    ensures forall j, p :: 0 <= j < |rep.families| ==>
              (p in rep.familyLists[j] <==>
                 p in gd.primers && members[rep.families[j]] == {gd.name} + p.amplifiesOrganism && PassesEnabled(p, flags))
    ensures Ok(rep.unique) == UniquePrimers(gd.primers, flags)
    ensures Ok(rep.universal) == PrimersAmplifyCount(gd.primers, count, flags)
    ensures rep.row == SummaryRow(gd.name, rep.families, |rep.unique|, |rep.universal|,
                                  gd.seqFilename, gd.ftFilename, gd.primerFilename)
  {
    var fams := gd.families.value;
    forall j, p | 0 <= j < |rep.families|
      ensures p in rep.familyLists[j] <==>
                p in gd.primers && members[rep.families[j]] == {gd.name} + p.amplifiesOrganism && PassesEnabled(p, flags)
    {
      var q := FamilyUniquePrimers(gd.name, gd.primers, members[fams[j]], flags);
      assert Ok(rep.familyLists[j]) == q;
    }
  }

  /** Every genome's `GenomeQueries`, in list order; AttributeError if any raises. */
  function Reports(gdlist: seq<GenomeData>, members: map<string, set<string>>, count: int, flags: QueryFlags)
    : (r: Result<seq<GenomeReport>, PyError>)
    reads set g | g in gdlist
    requires forall g :: g in gdlist ==> g.families.Some? && forall f :: f in g.families.value ==> f in members
    ensures r.Err? <==> exists i :: 0 <= i < |gdlist| && QueriesRaise(gdlist[i], members, count, flags)
    ensures r.Err? ==> r.error == AttributeError
    ensures r.Ok? ==> |r.value| == |gdlist|
                      && forall i :: 0 <= i < |gdlist| ==> Ok(r.value[i]) == GenomeQueries(gdlist[i], members, count, flags)
    ensures r.Ok? ==> WellFormed(r.value)
  {
    if exists i :: 0 <= i < |gdlist| && QueriesRaise(gdlist[i], members, count, flags) then Err(AttributeError)
    else
      Ok(seq(|gdlist|, i reads set g | g in gdlist
                         requires 0 <= i < |gdlist| && !QueriesRaise(gdlist[i], members, count, flags)
                         => GenomeQueries(gdlist[i], members, count, flags).value))
  }

  /** When every genome's queries succeed, `Reports` is the list of their results. */
  lemma ReportsAllOk(gdlist: seq<GenomeData>, members: map<string, set<string>>, count: int, flags: QueryFlags,
                     reps: seq<GenomeReport>)
    requires forall g :: g in gdlist ==> g.families.Some? && forall f :: f in g.families.value ==> f in members
    requires |reps| == |gdlist|
    requires forall j :: 0 <= j < |gdlist| ==> Ok(reps[j]) == GenomeQueries(gdlist[j], members, count, flags)
    ensures Reports(gdlist, members, count, flags) == Ok(reps)
  {
    assert forall j :: 0 <= j < |gdlist| ==> !QueriesRaise(gdlist[j], members, count, flags);
    var all := Reports(gdlist, members, count, flags);
    assert all.Ok? && |all.value| == |reps|;
    assert forall j :: 0 <= j < |reps| ==> all.value[j] == reps[j];
    assert all.value == reps;
  }

  /** When every genome's queries succeed, the summary is assembled from their results. */
  lemma AssembleAllOk(gdlist: seq<GenomeData>, members: map<string, set<string>>, count: int, flags: QueryFlags,
                      reps: seq<GenomeReport>, rows: seq<string>, totals: map<string, seq<Primer>>,
                      universal: seq<Primer>, last: Option<seq<Primer>>)
    requires forall g :: g in gdlist ==> g.families.Some? && forall f :: f in g.families.value ==> f in members
    requires FirstReports(gdlist, members, count, flags, reps) && |reps| == |gdlist|
    requires Accumulated(reps, rows, totals, universal, last)
    ensures Assemble(Reports(gdlist, members, count, flags))
            == if last.None? then Err(NameError) else Ok(Summary(rows, totals, universal, last.value))
  {
    ReportsAllOk(gdlist, members, count, flags, reps);
  }

  /** One genome whose queries raise makes the whole list raise. */
  lemma ReportsErr(gdlist: seq<GenomeData>, members: map<string, set<string>>, count: int, flags: QueryFlags, i: nat)
    requires forall g :: g in gdlist ==> g.families.Some? && forall f :: f in g.families.value ==> f in members
    requires i < |gdlist| && GenomeQueries(gdlist[i], members, count, flags).Err?
    ensures Reports(gdlist, members, count, flags) == Err(AttributeError)
    ensures GenomeQueries(gdlist[i], members, count, flags) == Err(AttributeError)
    ensures Assemble(Reports(gdlist, members, count, flags)) == Err(AttributeError)
  {
  }

  /** `reps` holds the query results of the first `|reps|` genomes. */
  ghost predicate FirstReports(gdlist: seq<GenomeData>, members: map<string, set<string>>, count: int, flags: QueryFlags,
                               reps: seq<GenomeReport>)
    reads set g | g in gdlist
    requires forall g :: g in gdlist ==> g.families.Some? && forall f :: f in g.families.value ==> f in members
  {
    && |reps| <= |gdlist| && WellFormed(reps)
    && forall j :: 0 <= j < |reps| ==> Ok(reps[j]) == GenomeQueries(gdlist[j], members, count, flags)
  }

  /**
   * The loop variables of `write_report` after the genomes of `reps`: the
   * summary rows, the per-family lists, the universal primers so far and
   * the last genome's universal primers.
   */
  ghost predicate Accumulated(reps: seq<GenomeReport>, rows: seq<string>, totals: map<string, seq<Primer>>,
                              universal: seq<Primer>, last: Option<seq<Primer>>)
  {
    && WellFormed(reps)
    && rows == Rows(reps) && totals == FamilyTotals(reps) && universal == AllUniversal(reps)
    && last == if reps == [] then None else Some(reps[|reps| - 1].universal)
  }

  /** The parts of the first genomes, one more appended. */
  lemma GatherStep(gdlist: seq<GenomeData>, members: map<string, set<string>>, count: int, flags: QueryFlags,
                   reps: seq<GenomeReport>, rep: GenomeReport, rows: seq<string>, totals: map<string, seq<Primer>>,
                   universal: seq<Primer>, last: Option<seq<Primer>>)
    requires forall g :: g in gdlist ==> g.families.Some? && forall f :: f in g.families.value ==> f in members
    requires FirstReports(gdlist, members, count, flags, reps) && |reps| < |gdlist|
    requires Ok(rep) == GenomeQueries(gdlist[|reps|], members, count, flags)
    requires Accumulated(reps, rows, totals, universal, last)
    ensures FirstReports(gdlist, members, count, flags, reps + [rep])
    ensures |rep.families| == |rep.familyLists|
    ensures Accumulated(reps + [rep], rows + [rep.row], AddLists(totals, rep.families, rep.familyLists),
                        universal + rep.universal, Some(rep.universal))
  {
    FirstReportsSnoc(gdlist, members, count, flags, reps, rep);
    AccumulateStep(reps, rep);
  }

  /** The results of the first genomes, one more appended. */
  lemma FirstReportsSnoc(gdlist: seq<GenomeData>, members: map<string, set<string>>, count: int, flags: QueryFlags,
                         reps: seq<GenomeReport>, rep: GenomeReport)
    requires forall g :: g in gdlist ==> g.families.Some? && forall f :: f in g.families.value ==> f in members
    requires FirstReports(gdlist, members, count, flags, reps) && |reps| < |gdlist|
    requires Ok(rep) == GenomeQueries(gdlist[|reps|], members, count, flags)
    ensures FirstReports(gdlist, members, count, flags, reps + [rep])
  {
    var n := |reps|;
    var reps' := reps + [rep];
    assert WellFormed(reps') by {
      assert forall j :: 0 <= j < n ==> reps'[j] == reps[j];
    }
    forall j | 0 <= j < n + 1
      ensures Ok(reps'[j]) == GenomeQueries(gdlist[j], members, count, flags)
    {
      if j < n {
        assert reps'[j] == reps[j];
      }
    }
  }

  // ------------------------------------------------------------------
  // Accumulating the per-genome parts

  function Rows(reps: seq<GenomeReport>): (r: seq<string>)
    ensures |r| == |reps| && forall i :: 0 <= i < |reps| ==> r[i] == reps[i].row
  {
    seq(|reps|, i requires 0 <= i < |reps| => reps[i].row)
  }

  /** `all_universal_primers += universal_primers`, genome after genome. */
  function AllUniversal(reps: seq<GenomeReport>): seq<Primer>
    decreases |reps|
  {
    if reps == [] then [] else AllUniversal(reps[..|reps| - 1]) + reps[|reps| - 1].universal
  }

  /** The entry of a `defaultdict(list)`: the empty list for a missing key. */
  function Get(m: map<string, seq<Primer>>, f: string): seq<Primer> {
    if f in m then m[f] else []
  }

  /** `family_specific_primers[family] += lists[j]` for each family of one genome, in order. */
  function AddLists(acc: map<string, seq<Primer>>, fams: seq<string>, lists: seq<seq<Primer>>): map<string, seq<Primer>>
    requires |fams| == |lists|
    decreases |fams|
  {
    if fams == [] then acc
    else
      var n := |fams| - 1;
      var m := AddLists(acc, fams[..n], lists[..n]);
      m[fams[n] := Get(m, fams[n]) + lists[n]]
  }

  predicate WellFormed(reps: seq<GenomeReport>) {
    forall i :: 0 <= i < |reps| ==> |reps[i].families| == |reps[i].familyLists|
  }

  /** The `family_specific_primers` dictionary after every genome. */
  function FamilyTotals(reps: seq<GenomeReport>): map<string, seq<Primer>>
    requires WellFormed(reps)
    decreases |reps|
  {
    if reps == [] then map[]
    else
      var n := |reps| - 1;
      AddLists(FamilyTotals(reps[..n]), reps[n].families, reps[n].familyLists)
  }

  /** Some entry `f` of `fams` comes with a list holding `p`. */
  predicate InList(fams: seq<string>, lists: seq<seq<Primer>>, f: string, p: Primer)
    requires |fams| == |lists|
  {
    exists j :: 0 <= j < |fams| && fams[j] == f && p in lists[j]
  }

  lemma InListSnoc(fams: seq<string>, lists: seq<seq<Primer>>, f: string, p: Primer)
    requires |fams| == |lists| && fams != []
    ensures var n := |fams| - 1;
            InList(fams, lists, f, p) <==> InList(fams[..n], lists[..n], f, p) || (fams[n] == f && p in lists[n])
  {
    var n := |fams| - 1;
    if InList(fams, lists, f, p) {
      var j :| 0 <= j < |fams| && fams[j] == f && p in lists[j];
      if j < n {
        assert fams[..n][j] == f && lists[..n][j] == lists[j];
      }
    }
    if InList(fams[..n], lists[..n], f, p) {
      var j :| 0 <= j < n && fams[..n][j] == f && p in lists[..n][j];
      assert fams[j] == f && p in lists[j];
    }
  }

  lemma AddListsMeaning(acc: map<string, seq<Primer>>, fams: seq<string>, lists: seq<seq<Primer>>)
    requires |fams| == |lists|
    ensures forall f :: f in AddLists(acc, fams, lists) <==> f in acc || f in fams
    ensures forall f, p :: p in Get(AddLists(acc, fams, lists), f) <==>
              p in Get(acc, f) || exists j :: 0 <= j < |fams| && fams[j] == f && p in lists[j]
  {
    AddListsKeys(acc, fams, lists);
    forall f, p
      ensures p in Get(AddLists(acc, fams, lists), f) <==>
              p in Get(acc, f) || exists j :: 0 <= j < |fams| && fams[j] == f && p in lists[j]
    {
      AddListsAt(acc, fams, lists, f, p);
    }
  }

  lemma {:induction false} AddListsKeys(acc: map<string, seq<Primer>>, fams: seq<string>, lists: seq<seq<Primer>>)
    requires |fams| == |lists|
    ensures forall f :: f in AddLists(acc, fams, lists) <==> f in acc || f in fams
    decreases |fams|
  {
    if fams != [] {
      var n := |fams| - 1;
      AddListsKeys(acc, fams[..n], lists[..n]);
      assert fams == fams[..n] + [fams[n]];
    }
  }

  /** A primer is in the accumulated list of `f` when it was already there or came with an entry `f`. */
  lemma {:induction false} AddListsAt(acc: map<string, seq<Primer>>, fams: seq<string>, lists: seq<seq<Primer>>,
                                      f: string, p: Primer)
    requires |fams| == |lists|
    ensures p in Get(AddLists(acc, fams, lists), f) <==> p in Get(acc, f) || InList(fams, lists, f, p)
    decreases |fams|
  {
    if fams != [] {
      var n := |fams| - 1;
      AddListsAt(acc, fams[..n], lists[..n], f, p);
      InListSnoc(fams, lists, f, p);
      var m := AddLists(acc, fams[..n], lists[..n]);
      assert Get(AddLists(acc, fams, lists), f) == if f == fams[n] then Get(m, f) + lists[n] else Get(m, f);
    }
  }

  /** Some genome's report comes with a family list for `f` that holds `p`. */
  predicate InFamilyList(reps: seq<GenomeReport>, f: string, p: Primer)
    requires WellFormed(reps)
  {
    exists i, j :: 0 <= i < |reps| && 0 <= j < |reps[i].families| && reps[i].families[j] == f
                   && p in reps[i].familyLists[j]
  }

  lemma InFamilyListSnoc(reps: seq<GenomeReport>, f: string, p: Primer)
    requires WellFormed(reps) && reps != []
    ensures var n := |reps| - 1;
            WellFormed(reps[..n])
            && (InFamilyList(reps, f, p) <==>
                  InFamilyList(reps[..n], f, p) || InList(reps[n].families, reps[n].familyLists, f, p))
  {
    var n := |reps| - 1;
    var init := reps[..n];
    assert WellFormed(init);
    if InFamilyList(reps, f, p) {
      var i, j :| 0 <= i < |reps| && 0 <= j < |reps[i].families| && reps[i].families[j] == f
                  && p in reps[i].familyLists[j];
      if i < n {
        assert init[i] == reps[i];
      }
    }
    if InFamilyList(init, f, p) {
      var i, j :| 0 <= i < n && 0 <= j < |init[i].families| && init[i].families[j] == f
                  && p in init[i].familyLists[j];
      assert reps[i] == init[i];
    }
  }

  /** `totals[f]` holds exactly the primers of the family lists that the genomes' reports give for `f`. */
  ghost predicate ListsByFamily(totals: map<string, seq<Primer>>, reps: seq<GenomeReport>)
    requires WellFormed(reps)
  {
    forall f, p :: p in Get(totals, f) <==>
      exists i, j :: 0 <= i < |reps| && 0 <= j < |reps[i].families| && reps[i].families[j] == f
                     && p in reps[i].familyLists[j]
  }

  lemma FamilyTotalsMeaning(reps: seq<GenomeReport>)
    requires WellFormed(reps)
    ensures forall f :: f in FamilyTotals(reps) <==> exists i :: 0 <= i < |reps| && f in reps[i].families
    ensures ListsByFamily(FamilyTotals(reps), reps)
  {
    FamilyTotalsKeys(reps);
    FamilyTotalsLists(reps);
  }

  lemma {:induction false} FamilyTotalsKeys(reps: seq<GenomeReport>)
    requires WellFormed(reps)
    ensures forall f :: f in FamilyTotals(reps) <==> exists i :: 0 <= i < |reps| && f in reps[i].families
    decreases |reps|
  {
    if reps != [] {
      var n := |reps| - 1;
      var init := reps[..n];
      assert WellFormed(init);
      FamilyTotalsKeys(init);
      AddListsKeys(FamilyTotals(init), reps[n].families, reps[n].familyLists);
      forall f ensures f in FamilyTotals(reps) <==> exists i :: 0 <= i < |reps| && f in reps[i].families {
        if exists i :: 0 <= i < |reps| && f in reps[i].families {
          var i :| 0 <= i < |reps| && f in reps[i].families;
          if i < n {
            assert init[i] == reps[i];
          }
        }
        if exists i :: 0 <= i < n && f in init[i].families {
          var i :| 0 <= i < n && f in init[i].families;
          assert reps[i] == init[i];
        }
      }
    }
  }

  lemma FamilyTotalsLists(reps: seq<GenomeReport>)
    requires WellFormed(reps)
    ensures ListsByFamily(FamilyTotals(reps), reps)
  {
    forall f, p
      ensures p in Get(FamilyTotals(reps), f) <==>
              exists i, j :: 0 <= i < |reps| && 0 <= j < |reps[i].families| && reps[i].families[j] == f
                             && p in reps[i].familyLists[j]
    {
      FamilyTotalsAt(reps, f, p);
    }
  }

  /** The accumulated lists hold exactly what the genomes' family queries found for each family. */
  lemma {:induction false} FamilyTotalsAt(reps: seq<GenomeReport>, f: string, p: Primer)
    requires WellFormed(reps)
    ensures p in Get(FamilyTotals(reps), f) <==> InFamilyList(reps, f, p)
    decreases |reps|
  {
    if reps != [] {
      var n := |reps| - 1;
      InFamilyListSnoc(reps, f, p);
      FamilyTotalsAt(reps[..n], f, p);
      AddListsAt(FamilyTotals(reps[..n]), reps[n].families, reps[n].familyLists, f, p);
    }
  }

  /** One more genome's part extends each accumulated value by that part. */
  lemma AccumulateStep(reps: seq<GenomeReport>, rep: GenomeReport)
    requires WellFormed(reps) && |rep.families| == |rep.familyLists|
    ensures WellFormed(reps + [rep])
    ensures Rows(reps + [rep]) == Rows(reps) + [rep.row]
    ensures FamilyTotals(reps + [rep]) == AddLists(FamilyTotals(reps), rep.families, rep.familyLists)
    ensures AllUniversal(reps + [rep]) == AllUniversal(reps) + rep.universal
  {
    assert (reps + [rep])[..|reps|] == reps;
  }

  /** The gathered universal list holds exactly the genomes' universal primers. */
  lemma {:induction false} AllUniversalMeaning(reps: seq<GenomeReport>)
    ensures forall p :: p in AllUniversal(reps) <==> exists i :: 0 <= i < |reps| && p in reps[i].universal
    decreases |reps|
  {
    if reps != [] {
      var n := |reps| - 1;
      AllUniversalMeaning(reps[..n]);
      forall p ensures p in AllUniversal(reps) <==> exists i :: 0 <= i < |reps| && p in reps[i].universal {
        if exists i :: 0 <= i < |reps| && p in reps[i].universal {
          var i :| 0 <= i < |reps| && p in reps[i].universal;
          if i < n {
            assert reps[..n][i] == reps[i];
          }
        }
        if exists i :: 0 <= i < n && p in reps[..n][i].universal {
          var i :| 0 <= i < n && p in reps[..n][i].universal;
          assert reps[i] == reps[..n][i];
        }
      }
    }
  }

  // ------------------------------------------------------------------
  // The whole report

  /** What `write_report` assembles, in the order it writes it. */
  datatype Summary = Summary(
    rows: seq<string>,                            // the summary table, one row per genome
    familySpecific: map<string, seq<Primer>>,     // `family_specific_primers`
    allUniversal: seq<Primer>,                    // `all_universal_primers`
    universalFile: seq<Primer>)                   // the list written to the universal primer file

  /**
   * The report data for a genome list: TypeError when a genome has no family
   * list, AttributeError when a query raises, NameError for an empty list
   * (the universal file is written from a loop variable that was never
   * bound); otherwise the rows, the family-specific and universal primers,
   * and the last genome's universal primers for the universal file.
   */
  function ReportOf(gdlist: seq<GenomeData>, flags: QueryFlags): (r: Result<Summary, PyError>)
    reads set g | g in gdlist
    ensures !HasFamilies(gdlist) ==> r == Err(TypeError)
    ensures gdlist == [] ==> r == Err(NameError)
    ensures HasFamilies(gdlist) && gdlist != [] ==>
              (r.Err? <==> exists i :: 0 <= i < |gdlist| && QueriesRaise(gdlist[i], FamilyMap(gdlist), |gdlist| - 1, flags))
              && (r.Err? ==> r.error == AttributeError)
  {
    if !HasFamilies(gdlist) then Err(TypeError)
    else
      FamilyMapCovers(gdlist);
      Assemble(Reports(gdlist, FamilyMap(gdlist), |gdlist| - 1, flags))
  }

  /** The report from the genomes' parts: NameError when there are none. */
  function Assemble(parts: Result<seq<GenomeReport>, PyError>): Result<Summary, PyError>
    requires parts.Ok? ==> WellFormed(parts.value)
  {
    match parts
    case Err(e) => Err(e)
    case Ok(reps) =>
      if reps == [] then Err(NameError)
      else Ok(Summary(Rows(reps), FamilyTotals(reps), AllUniversal(reps), reps[|reps| - 1].universal))
  }

  /**
   * `write_report`'s data assembly: the family dictionary, then the loop
   * over the genomes.
   */
  method WriteReport(gdlist: seq<GenomeData>, nocds: bool, gc3Prime: bool, singleProduct: bool, blastfilter: bool)
    returns (r: Result<Summary, PyError>)
    ensures r == ReportOf(gdlist, ReportFlags(nocds, gc3Prime, singleProduct, blastfilter))
  {
    var flags := ReportFlags(nocds, gc3Prime, singleProduct, blastfilter);
    var fam := FamilyMembers(gdlist);
    if fam.Err? {
      return Err(fam.error);
    }
    FamilyMapCovers(gdlist);
    r := GatherReports(gdlist, fam.value, |gdlist| - 1, flags);
  }

  /**
   * The loop of `write_report` over the genomes: each genome's three
   * queries, its summary row, its family lists added to the per-family
   * lists and its universal primers appended to the overall list; the
   * universal file gets the last genome's universal primers.
   */
  method GatherReports(gdlist: seq<GenomeData>, families: map<string, set<string>>, count: int, flags: QueryFlags)
    returns (r: Result<Summary, PyError>)
    requires forall g :: g in gdlist ==> g.families.Some? && forall f :: f in g.families.value ==> f in families
    ensures r == Assemble(Reports(gdlist, families, count, flags))
  {
    var rows: seq<string> := [];
    var familySpecific: map<string, seq<Primer>> := map[];
    var allUniversal: seq<Primer> := [];
    var last: Option<seq<Primer>> := None;
    ghost var reps: seq<GenomeReport> := [];
    for i := 0 to |gdlist|
      invariant |reps| == i && FirstReports(gdlist, families, count, flags, reps)
      invariant Accumulated(reps, rows, familySpecific, allUniversal, last)
    {
      var q := GenomeQueries(gdlist[i], families, count, flags);
      if q.Err? {
        ReportsErr(gdlist, families, count, flags, i);
        return Err(q.error);
      }
      var rep := q.value;
      GatherStep(gdlist, families, count, flags, reps, rep, rows, familySpecific, allUniversal, last);
      rows := rows + [rep.row];
      familySpecific := AddFamilyLists(familySpecific, rep.families, rep.familyLists);
      allUniversal := allUniversal + rep.universal;
      last := Some(rep.universal);
      reps := reps + [rep];
    }
    AssembleAllOk(gdlist, families, count, flags, reps, rows, familySpecific, allUniversal, last);
    if last.None? {
      return Err(NameError);
    }
    r := Ok(Summary(rows, familySpecific, allUniversal, last.value));
  }

  /** The inner family loop of `write_report` for one genome. */
  method AddFamilyLists(acc: map<string, seq<Primer>>, fams: seq<string>, lists: seq<seq<Primer>>)
    returns (m: map<string, seq<Primer>>)
    requires |fams| == |lists|
    ensures m == AddLists(acc, fams, lists)
  {
    m := acc;
    for j := 0 to |fams|
      invariant m == AddLists(acc, fams[..j], lists[..j])
    {
      assert fams[..j + 1][..j] == fams[..j] && lists[..j + 1][..j] == lists[..j];
      m := m[fams[j] := Get(m, fams[j]) + lists[j]];
    }
    assert fams[..|fams|] == fams && lists[..|lists|] == lists;
  }

  // ------------------------------------------------------------------
  // What the report holds

  /** One summary row per genome, built from the genome's own query results. */
  lemma ReportRows(gdlist: seq<GenomeData>, flags: QueryFlags)
    requires ReportOf(gdlist, flags).Ok?
    ensures HasFamilies(gdlist)
    ensures var rows := ReportOf(gdlist, flags).value.rows;
            |rows| == |gdlist|
            && forall i :: 0 <= i < |gdlist| ==>
                 var g := gdlist[i];
                 PrimersAmplifyCount(g.primers, 0, flags).Ok? && PrimersAmplifyCount(g.primers, |gdlist| - 1, flags).Ok?
                 && rows[i] == SummaryRow(g.name, g.families.value, |PrimersAmplifyCount(g.primers, 0, flags).value|,
                                          |PrimersAmplifyCount(g.primers, |gdlist| - 1, flags).value|,
                                          g.seqFilename, g.ftFilename, g.primerFilename)
  {
  }

  /** The parts a successful report is built from. */
  lemma ReportParts(gdlist: seq<GenomeData>, flags: QueryFlags) returns (members: map<string, set<string>>, reps: seq<GenomeReport>)
    requires ReportOf(gdlist, flags).Ok?
    ensures HasFamilies(gdlist) && members == FamilyMap(gdlist)
    ensures forall g :: g in gdlist ==> forall f :: f in g.families.value ==> f in members
    ensures |reps| == |gdlist| > 0 && WellFormed(reps)
    ensures forall i :: 0 <= i < |gdlist| ==> Ok(reps[i]) == GenomeQueries(gdlist[i], members, |gdlist| - 1, flags)
    ensures ReportOf(gdlist, flags).value
            == Summary(Rows(reps), FamilyTotals(reps), AllUniversal(reps), reps[|reps| - 1].universal)
  {
    members := FamilyMap(gdlist);
    FamilyMapCovers(gdlist);
    reps := Reports(gdlist, members, |gdlist| - 1, flags).value;
  }

  /**
   * The gathered universal primers are exactly the primers, of any genome,
   * that amplify all `len(gdlist) - 1` other genomes and pass the enabled
   * filters.
   */
  lemma UniversalPrimers(gdlist: seq<GenomeData>, flags: QueryFlags)
    requires ReportOf(gdlist, flags).Ok?
    ensures forall p :: p in ReportOf(gdlist, flags).value.allUniversal <==>
              exists g :: g in gdlist && p in g.primers && |p.amplifiesOrganism| == |gdlist| - 1 && PassesEnabled(p, flags)
  {
    var members, reps := ReportParts(gdlist, flags);
    var count := |gdlist| - 1;
    forall i | 0 <= i < |gdlist|
      ensures forall p :: p in reps[i].universal <==>
                p in gdlist[i].primers && |p.amplifiesOrganism| == count && PassesEnabled(p, flags)
    {
      GenomeQueriesMeaning(gdlist[i], members, count, flags, reps[i]);
    }
    AllUniversalOfGenomes(gdlist, count, flags, reps);
  }

  /** The gathered universal primers of reports whose universal lists are each genome's. */
  lemma AllUniversalOfGenomes(gdlist: seq<GenomeData>, count: int, flags: QueryFlags, reps: seq<GenomeReport>)
    requires |reps| == |gdlist|
    requires forall i :: 0 <= i < |gdlist| ==> forall p :: p in reps[i].universal <==>
               p in gdlist[i].primers && |p.amplifiesOrganism| == count && PassesEnabled(p, flags)
    ensures forall p :: p in AllUniversal(reps) <==>
              exists g :: g in gdlist && p in g.primers && |p.amplifiesOrganism| == count && PassesEnabled(p, flags)
  {
    AllUniversalMeaning(reps);
    forall p ensures p in AllUniversal(reps) <==>
                     exists g :: g in gdlist && p in g.primers && |p.amplifiesOrganism| == count && PassesEnabled(p, flags)
    {
      if exists g :: g in gdlist && p in g.primers && |p.amplifiesOrganism| == count && PassesEnabled(p, flags) {
        var g :| g in gdlist && p in g.primers && |p.amplifiesOrganism| == count && PassesEnabled(p, flags);
        var i :| 0 <= i < |gdlist| && gdlist[i] == g;
        assert p in reps[i].universal;
      }
    }
  }

  /**
   * One genome's report lists the genome's own families, and the list for
   * each of them holds exactly the genome's primers that amplify the rest
   * of that family and pass the enabled filters.
   */
  ghost predicate FamilyListsOf(gd: GenomeData, members: map<string, set<string>>, flags: QueryFlags, rep: GenomeReport)
    reads gd
    requires gd.families.Some? && forall f :: f in gd.families.value ==> f in members
  {
    && rep.families == gd.families.value
    && |rep.familyLists| == |rep.families|
    && forall j, p :: 0 <= j < |rep.families| ==>
         (p in rep.familyLists[j] <==>
            p in gd.primers && members[rep.families[j]] == {gd.name} + p.amplifiesOrganism && PassesEnabled(p, flags))
  }

  /** `FamilyListsOf` for every genome of the list and its report. */
  ghost predicate FamilyParts(gdlist: seq<GenomeData>, members: map<string, set<string>>, flags: QueryFlags,
                              reps: seq<GenomeReport>)
    reads set g | g in gdlist
  {
    && (forall g :: g in gdlist ==> g.families.Some? && forall f :: f in g.families.value ==> f in members)
    && |reps| == |gdlist| && WellFormed(reps)
    && (forall i :: 0 <= i < |gdlist| ==> FamilyListsOf(gdlist[i], members, flags, reps[i]))
  }

  /** The parts of a successful report, with what each genome's family lists hold. */
  lemma ReportFamilyParts(gdlist: seq<GenomeData>, flags: QueryFlags) returns (members: map<string, set<string>>, reps: seq<GenomeReport>)
    requires ReportOf(gdlist, flags).Ok?
    ensures HasFamilies(gdlist) && members == FamilyMap(gdlist)
    ensures FamilyParts(gdlist, members, flags, reps)
    ensures WellFormed(reps) && ReportOf(gdlist, flags).value.familySpecific == FamilyTotals(reps)
  {
    members, reps := ReportParts(gdlist, flags);
    AllFamilyListsMeaning(gdlist, members, |gdlist| - 1, flags, reps);
  }

  lemma AllFamilyListsMeaning(gdlist: seq<GenomeData>, members: map<string, set<string>>, count: int, flags: QueryFlags,
                              reps: seq<GenomeReport>)
    requires forall g :: g in gdlist ==> g.families.Some? && forall f :: f in g.families.value ==> f in members
    requires |reps| == |gdlist|
    requires forall i :: 0 <= i < |gdlist| ==> Ok(reps[i]) == GenomeQueries(gdlist[i], members, count, flags)
    ensures WellFormed(reps)
    ensures forall i :: 0 <= i < |gdlist| ==> FamilyListsOf(gdlist[i], members, flags, reps[i])
  {
    forall i | 0 <= i < |gdlist|
      ensures FamilyListsOf(gdlist[i], members, flags, reps[i])
    {
      GenomeQueriesMeaning(gdlist[i], members, count, flags, reps[i]);
    }
  }

  /** The report has a family-specific list for exactly the families some genome lists. */
  lemma FamilySpecificKeys(gdlist: seq<GenomeData>, flags: QueryFlags)
    requires ReportOf(gdlist, flags).Ok?
    ensures HasFamilies(gdlist)
    ensures forall f :: f in ReportOf(gdlist, flags).value.familySpecific <==> exists g :: g in gdlist && f in g.families.value
  {
    var members, reps := ReportFamilyParts(gdlist, flags);
    FamilyTotalsMeaning(reps);
    KeysOfGenomeFamilies(gdlist, reps, FamilyTotals(reps));
  }

  /** Keys that come from the genomes' reports are the families the genomes list. */
  lemma KeysOfGenomeFamilies(gdlist: seq<GenomeData>, reps: seq<GenomeReport>, totals: map<string, seq<Primer>>)
    requires HasFamilies(gdlist) && |reps| == |gdlist|
    requires forall i :: 0 <= i < |gdlist| ==> reps[i].families == gdlist[i].families.value
    requires forall f :: f in totals <==> exists i :: 0 <= i < |reps| && f in reps[i].families
    ensures forall f :: f in totals <==> exists g :: g in gdlist && f in g.families.value
  {
    forall f | exists g :: g in gdlist && f in g.families.value
      ensures f in totals
    {
      var g :| g in gdlist && f in g.families.value;
      var i :| 0 <= i < |gdlist| && gdlist[i] == g;
      assert f in reps[i].families;
    }
  }

  /**
   * The family-specific list of `f` holds exactly the primers of the genomes
   * listing `f` whose amplified genomes plus their own genome make up the
   * whole family, and which pass the enabled filters.
   */
  lemma FamilySpecificPrimers(gdlist: seq<GenomeData>, flags: QueryFlags, f: string, p: Primer)
    requires ReportOf(gdlist, flags).Ok?
    ensures HasFamilies(gdlist)
    ensures p in Get(ReportOf(gdlist, flags).value.familySpecific, f) <==>
            exists g :: g in gdlist && f in g.families.value && p in g.primers
                        && FamilyMap(gdlist)[f] == {g.name} + p.amplifiesOrganism && PassesEnabled(p, flags)
  {
    var members, reps := ReportFamilyParts(gdlist, flags);
    FamilyTotalsMeaning(reps);
    FamilyListsContents(gdlist, members, flags, reps, ReportOf(gdlist, flags).value.familySpecific, f, p);
  }

  lemma FamilyListsContents(gdlist: seq<GenomeData>, members: map<string, set<string>>, flags: QueryFlags,
                            reps: seq<GenomeReport>, totals: map<string, seq<Primer>>, f: string, p: Primer)
    requires FamilyParts(gdlist, members, flags, reps) && ListsByFamily(totals, reps)
    ensures p in Get(totals, f) <==>
            exists g :: g in gdlist && f in g.families.value && p in g.primers
                        && members[f] == {g.name} + p.amplifiesOrganism && PassesEnabled(p, flags)
  {
    if exists g :: g in gdlist && f in g.families.value && p in g.primers
                   && members[f] == {g.name} + p.amplifiesOrganism && PassesEnabled(p, flags) {
      var g :| g in gdlist && f in g.families.value && p in g.primers
               && members[f] == {g.name} + p.amplifiesOrganism && PassesEnabled(p, flags);
      var i :| 0 <= i < |gdlist| && gdlist[i] == g;
      var j :| 0 <= j < |g.families.value| && g.families.value[j] == f;
      assert FamilyListsOf(gdlist[i], members, flags, reps[i]);
      assert p in reps[i].familyLists[j];
    }
    if p in Get(totals, f) {
      var i, j :| 0 <= i < |reps| && 0 <= j < |reps[i].families| && reps[i].families[j] == f
                  && p in reps[i].familyLists[j];
      assert FamilyListsOf(gdlist[i], members, flags, reps[i]);
      assert gdlist[i] in gdlist;
    }
  }

  /** The universal file holds the last genome's universal primers only, not the gathered list. */
  lemma UniversalFileIsLastGenome(gdlist: seq<GenomeData>, flags: QueryFlags)
    requires ReportOf(gdlist, flags).Ok?
    ensures gdlist != []
    ensures Ok(ReportOf(gdlist, flags).value.universalFile)
            == PrimersAmplifyCount(gdlist[|gdlist| - 1].primers, |gdlist| - 1, flags)
  {
    var members, reps := ReportParts(gdlist, flags);
    var n := |gdlist| - 1;
    assert Ok(reps[n]) == GenomeQueries(gdlist[n], members, n, flags);
    UniversalOfGenome(gdlist[n], members, n, flags, reps[n]);
  }

  /** One genome's universal primers are `PrimersAmplifyCount` of its primers. */
  lemma UniversalOfGenome(gd: GenomeData, members: map<string, set<string>>, count: int, flags: QueryFlags, rep: GenomeReport)
    requires gd.families.Some? && forall f :: f in gd.families.value ==> f in members
    requires Ok(rep) == GenomeQueries(gd, members, count, flags)
    ensures Ok(rep.universal) == PrimersAmplifyCount(gd.primers, count, flags)
  {
    GenomeQueriesMeaning(gd, members, count, flags, rep);
  }

  /**
   * With a single genome the universal count is 0, so its universal primers
   * are its unique primers and the universal file repeats them.
   */
  lemma OneGenomeUniversalIsUnique(gdlist: seq<GenomeData>, flags: QueryFlags)
    requires |gdlist| == 1 && ReportOf(gdlist, flags).Ok?
    ensures var s := ReportOf(gdlist, flags).value;
            Ok(s.allUniversal) == UniquePrimers(gdlist[0].primers, flags) && s.universalFile == s.allUniversal
  {
    var members, reps := ReportParts(gdlist, flags);
    GenomeQueriesMeaning(gdlist[0], members, 0, flags, reps[0]);
    assert reps[..0] == [];
    assert AllUniversal(reps) == AllUniversal(reps[..0]) + reps[0].universal;
    assert AllUniversal(reps) == reps[0].universal;
  }
}
