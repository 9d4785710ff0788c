/**
 * The classifier queries of a genome: `get_primers_amplify_count`,
 * `get_unique_primers` and `get_family_unique_primers`. Each takes the
 * genome's primers in dictionary order, keeps those meeting a base
 * condition on the set of other genomes they amplify, and then narrows the
 * list by an ordered chain of optional filters:
 * CDS overlap, 3' GC, internal oligo, BLAST, single product.
 */
module Classifier {
  import opened Wrappers
  import opened Primers

  /**
   * Which optional filters a query applies. The first, third and fourth come
   * from the caller's arguments; the 3' GC and single-product filters come
   * from the program's global options.
   */
  datatype QueryFlags = QueryFlags(cds: bool, gc3Prime: bool, oligo: bool, blast: bool, singleProduct: bool)

  /** No optional filter. */
  const NoFilters := QueryFlags(false, false, false, false, false)

  /** A condition one list comprehension of a query keeps primers by. */
  datatype Criterion =
    | AmplifiesCount(count: int)                            // count == len(p.amplifies_organism)
    | FamilyExactly(genome: string, members: set<string>)   // members == {genome} | p.amplifies_organism
    | CdsOverlap
    | Gc3PrimeValid
    | OligoValid
    | BlastPass
    | SingleProduct                                         // p.negative_control_amplimers == 1

  predicate Holds(p: Primer, c: Criterion) {
    match c
    case AmplifiesCount(n) => |p.amplifiesOrganism| == n
    case FamilyExactly(g, m) => m == {g} + p.amplifiesOrganism
    case CdsOverlap => p.cdsOverlap
    case Gc3PrimeValid => p.gc3PrimeValid
    case OligoValid => p.oligoValid
    case BlastPass => p.blastPass
    case SingleProduct => p.negativeControlAmplimers == Some(1)
  }

  // ------------------------------------------------------------------
  // Subsequences

  /** `r` is `s` with some elements left out and the rest in their order. */
  predicate Subsequence<T(==)>(r: seq<T>, s: seq<T>)
    decreases |s|
  {
    if r == [] then true
    else if s == [] then false
    else (r[0] == s[0] && Subsequence(r[1..], s[1..])) || Subsequence(r, s[1..])
  }

  lemma {:induction false} SubsequenceTransitive<T>(a: seq<T>, b: seq<T>, c: seq<T>)
    requires Subsequence(a, b) && Subsequence(b, c)
    ensures Subsequence(a, c)
    decreases |c|
  {
    if a != [] {
      assert b != [] && c != [];
      if Subsequence(b, c[1..]) {
        SubsequenceTransitive(a, b, c[1..]);
      } else {
        assert b[0] == c[0] && Subsequence(b[1..], c[1..]);
        if a[0] == b[0] && Subsequence(a[1..], b[1..]) {
          SubsequenceTransitive(a[1..], b[1..], c[1..]);
        } else {
          SubsequenceTransitive(a, b[1..], c[1..]);
        }
      }
    }
  }

  /** Dropping the front element of the longer list keeps a subsequence. */
  lemma SubsequenceOfCons<T>(a: seq<T>, x: T, b: seq<T>)
    requires Subsequence(a, b)
    ensures Subsequence(a, [x] + b) && Subsequence([x] + a, [x] + b)
  {
    assert ([x] + b)[1..] == b;
    assert ([x] + a)[1..] == a;
  }

  // ------------------------------------------------------------------
  // One list comprehension

  /** `[p for p in s if <c>]`. */
  function Select(s: seq<Primer>, c: Criterion): (r: seq<Primer>)
    ensures forall p :: p in r <==> p in s && Holds(p, c)
  {
    if s == [] then []
    else
      var rest := Select(s[1..], c);
      assert s == [s[0]] + s[1..];
      if Holds(s[0], c) then [s[0]] + rest else rest
  }

  /** A comprehension keeps a subsequence of its input. */
  lemma {:induction false} SelectShrinks(s: seq<Primer>, c: Criterion)
    ensures Subsequence(Select(s, c), s)
  {
    if s != [] {
      SelectShrinks(s[1..], c);
      SubsequenceOfCons(Select(s[1..], c), s[0], s[1..]);
      assert s == [s[0]] + s[1..];
    }
  }

  lemma {:induction false} SelectAppend(a: seq<Primer>, b: seq<Primer>, c: Criterion)
    ensures Select(a + b, c) == Select(a, c) + Select(b, c)
  {
    if a == [] {
      assert a + b == b;
    } else {
      assert (a + b)[0] == a[0] && (a + b)[1..] == a[1..] + b;
      SelectAppend(a[1..], b, c);
    }
  }

  lemma SelectSingleton(p: Primer, c: Criterion)
    ensures Select([p], c) == if Holds(p, c) then [p] else []
  {
    assert [p][1..] == [];
  }

  /**
   * `[p for p in s if p.negative_control_amplimers == 1]`: the comprehension
   * reads the attribute of every element in turn and raises AttributeError at
   * the first primer no negative-control search has reported.
   */
  function SelectSingleProduct(s: seq<Primer>): (r: Result<seq<Primer>, PyError>)
    ensures r.Err? <==> exists p :: p in s && p.negativeControlAmplimers.None?
    ensures r.Err? ==> r.error == AttributeError
    ensures r.Ok? ==> r.value == Select(s, SingleProduct)
  {
    if s == [] then Ok([])
    else if s[0].negativeControlAmplimers.None? then Err(AttributeError)
    else
      assert s == [s[0]] + s[1..];
      SelectAppend([s[0]], s[1..], SingleProduct);
      SelectSingleton(s[0], SingleProduct);
      match SelectSingleProduct(s[1..])
      case Err(e) => Err(e)
      case Ok(t) => Ok((if s[0].negativeControlAmplimers == Some(1) then [s[0]] else []) + t)
  }

  // ------------------------------------------------------------------
  // The filter chain

  /** The CDS, 3' GC, oligo and BLAST filters, in that order, each only when enabled. */
  function FlagFilters(s: seq<Primer>, flags: QueryFlags): seq<Primer> {
    var a := if flags.cds then Select(s, CdsOverlap) else s;
    var b := if flags.gc3Prime then Select(a, Gc3PrimeValid) else a;
    var c := if flags.oligo then Select(b, OligoValid) else b;
    if flags.blast then Select(c, BlastPass) else c
  }

  /** The whole optional chain, ending with the single-product filter. */
  function ApplyFilters(s: seq<Primer>, flags: QueryFlags): Result<seq<Primer>, PyError> {
    var d := FlagFilters(s, flags);
    if flags.singleProduct then SelectSingleProduct(d) else Ok(d)
  }

  /** A list is a subsequence of itself. */
  lemma {:induction false} SubsequenceReflexive<T>(s: seq<T>)
    ensures Subsequence(s, s)
  {
    if s != [] {
      SubsequenceReflexive(s[1..]);
    }
  }

  /**
   * Each stage of the chain keeps a subsequence of what it is given, so the
   * whole chain does: filtering only removes primers and never reorders them.
   */
  lemma FlagFiltersShrink(s: seq<Primer>, flags: QueryFlags)
    ensures Subsequence(FlagFilters(s, flags), s)
  {
    SubsequenceReflexive(s);
    SelectShrinks(s, CdsOverlap);
    var a := if flags.cds then Select(s, CdsOverlap) else s;
    SubsequenceReflexive(a);
    SelectShrinks(a, Gc3PrimeValid);
    var b := if flags.gc3Prime then Select(a, Gc3PrimeValid) else a;
    SubsequenceReflexive(b);
    SubsequenceTransitive(b, a, s);
    SelectShrinks(b, OligoValid);
    var c := if flags.oligo then Select(b, OligoValid) else b;
    SubsequenceReflexive(c);
    SubsequenceTransitive(c, b, s);
    SelectShrinks(c, BlastPass);
    var d := if flags.blast then Select(c, BlastPass) else c;
    SubsequenceTransitive(d, c, s);
  }

  // ------------------------------------------------------------------
  // Reference: one pass over the primers

  /** The primer passes the CDS, 3' GC, oligo and BLAST filters that are enabled. */
  predicate PassesFlagFilters(p: Primer, flags: QueryFlags) {
    (!flags.cds || p.cdsOverlap) && (!flags.gc3Prime || p.gc3PrimeValid)
    && (!flags.oligo || p.oligoValid) && (!flags.blast || p.blastPass)
  }

  /** The primer passes every enabled filter, the single-product one included. */
  predicate PassesEnabled(p: Primer, flags: QueryFlags) {
    PassesFlagFilters(p, flags) && (!flags.singleProduct || p.negativeControlAmplimers == Some(1))
  }

  /** The primers, in order, that meet the base condition and pass every enabled filter. */
  function Qualifying(s: seq<Primer>, base: Criterion, flags: QueryFlags): (r: seq<Primer>)
    ensures forall p :: p in r <==> p in s && Holds(p, base) && PassesEnabled(p, flags)
  {
    if s == [] then []
    else
      var rest := Qualifying(s[1..], base, flags);
      assert s == [s[0]] + s[1..];
      if Holds(s[0], base) && PassesEnabled(s[0], flags) then [s[0]] + rest else rest
  }

  /** The reference keeps a subsequence of the primers. */
  lemma {:induction false} QualifyingSubsequence(s: seq<Primer>, base: Criterion, flags: QueryFlags)
    ensures Subsequence(Qualifying(s, base, flags), s)
  {
    if s != [] {
      QualifyingSubsequence(s[1..], base, flags);
      SubsequenceOfCons(Qualifying(s[1..], base, flags), s[0], s[1..]);
      assert s == [s[0]] + s[1..];
    }
  }

  /** The reference keeps the front primer when it qualifies, then goes on with the rest. */
  lemma QualifyingCons(s: seq<Primer>, base: Criterion, flags: QueryFlags)
    requires s != []
    ensures Qualifying(s, base, flags)
            == (if Holds(s[0], base) && PassesEnabled(s[0], flags) then [s[0]] else []) + Qualifying(s[1..], base, flags)
  {
  }

  /**
   * The single-product filter raises: it is enabled and a primer that got
   * through the base condition and the earlier filters was never reported
   * by a negative-control search.
   */
  predicate MissingNegativeControl(s: seq<Primer>, base: Criterion, flags: QueryFlags) {
    flags.singleProduct
    && exists p :: p in s && Holds(p, base) && PassesFlagFilters(p, flags) && p.negativeControlAmplimers.None?
  }

  lemma FlagFiltersAppend(a: seq<Primer>, b: seq<Primer>, flags: QueryFlags)
    ensures FlagFilters(a + b, flags) == FlagFilters(a, flags) + FlagFilters(b, flags)
  {
    var a1 := if flags.cds then Select(a, CdsOverlap) else a;
    var b1 := if flags.cds then Select(b, CdsOverlap) else b;
    SelectAppend(a, b, CdsOverlap);
    var a2 := if flags.gc3Prime then Select(a1, Gc3PrimeValid) else a1;
    var b2 := if flags.gc3Prime then Select(b1, Gc3PrimeValid) else b1;
    SelectAppend(a1, b1, Gc3PrimeValid);
    var a3 := if flags.oligo then Select(a2, OligoValid) else a2;
    var b3 := if flags.oligo then Select(b2, OligoValid) else b2;
    SelectAppend(a2, b2, OligoValid);
    SelectAppend(a3, b3, BlastPass);
  }

  lemma FlagFiltersSingleton(p: Primer, flags: QueryFlags)
    ensures FlagFilters([p], flags) == if PassesFlagFilters(p, flags) then [p] else []
  {
    SelectSingleton(p, CdsOverlap);
    SelectSingleton(p, Gc3PrimeValid);
    SelectSingleton(p, OligoValid);
    SelectSingleton(p, BlastPass);
  }

  /** The four flag filters after the base comprehension keep what the one-pass reference keeps. */
  lemma {:induction false} FlagFiltersOfSelect(s: seq<Primer>, base: Criterion, flags: QueryFlags)
    ensures FlagFilters(Select(s, base), flags) == Qualifying(s, base, flags.(singleProduct := false))
  {
    var nf := flags.(singleProduct := false);
    if s != [] {
      var p, t := s[0], s[1..];
      SelectCons(s, base);
      QualifyingCons(s, base, nf);
      FlagFiltersOfSelect(t, base, flags);
      FlagFiltersOfOne(p, base, flags);
      FlagFiltersConsStep(if Holds(p, base) then [p] else [], Select(t, base),
                          if Holds(p, base) && PassesEnabled(p, nf) then [p] else [], Qualifying(t, base, nf), flags);
    }
  }

  /** A comprehension keeps the front primer when it meets the condition, then goes on with the rest. */
  lemma SelectCons(s: seq<Primer>, c: Criterion)
    requires s != []
    ensures Select(s, c) == (if Holds(s[0], c) then [s[0]] else []) + Select(s[1..], c)
  {
  }

  /** The flag filters on one primer that met the base condition. */
  lemma FlagFiltersOfOne(p: Primer, base: Criterion, flags: QueryFlags)
    ensures var nf := flags.(singleProduct := false);
            FlagFilters(if Holds(p, base) then [p] else [], flags)
            == if Holds(p, base) && PassesEnabled(p, nf) then [p] else []
  {
    if Holds(p, base) {
      FlagFiltersSingleton(p, flags);
    } else {
      FlagFiltersAppend([], [], flags);
    }
  }

  /** The flag filters over a front part and a rest, each with known result. */
  lemma FlagFiltersConsStep(head: seq<Primer>, rest: seq<Primer>, head': seq<Primer>, rest': seq<Primer>, flags: QueryFlags)
    requires FlagFilters(head, flags) == head' && FlagFilters(rest, flags) == rest'
    ensures FlagFilters(head + rest, flags) == head' + rest'
  {
    FlagFiltersAppend(head, rest, flags);
  }

  /** The single-product comprehension applied to the flag-filtered list completes the reference. */
  lemma {:induction false} SingleProductOfQualifying(s: seq<Primer>, base: Criterion, flags: QueryFlags)
    requires flags.singleProduct
    ensures Select(Qualifying(s, base, flags.(singleProduct := false)), SingleProduct) == Qualifying(s, base, flags)
  {
    var nf := flags.(singleProduct := false);
    if s != [] {
      var p, t := s[0], s[1..];
      QualifyingCons(s, base, nf);
      QualifyingCons(s, base, flags);
      SingleProductOfQualifying(t, base, flags);
      SingleProductOfOne(p, base, flags);
      SelectConsStep(if Holds(p, base) && PassesEnabled(p, nf) then [p] else [], Qualifying(t, base, nf),
                     if Holds(p, base) && PassesEnabled(p, flags) then [p] else [], Qualifying(t, base, flags),
                     SingleProduct);
    }
  }

  /** The single-product comprehension on one primer that passed the other filters. */
  lemma SingleProductOfOne(p: Primer, base: Criterion, flags: QueryFlags)
    requires flags.singleProduct
    ensures var nf := flags.(singleProduct := false);
            Select(if Holds(p, base) && PassesEnabled(p, nf) then [p] else [], SingleProduct)
            == if Holds(p, base) && PassesEnabled(p, flags) then [p] else []
  {
    SelectSingleton(p, SingleProduct);
    assert Select([], SingleProduct) == [];
  }

  /** A comprehension over a front part and a rest, each with known result. */
  lemma SelectConsStep(head: seq<Primer>, rest: seq<Primer>, head': seq<Primer>, rest': seq<Primer>, c: Criterion)
    requires Select(head, c) == head' && Select(rest, c) == rest'
    ensures Select(head + rest, c) == head' + rest'
  {
    SelectAppend(head, rest, c);
  }

  /** The single-product comprehension over the filtered primers raises exactly when one of them has no negative-control count. */
  lemma SingleProductRaises(s: seq<Primer>, base: Criterion, flags: QueryFlags)
    requires flags.singleProduct
    ensures SelectSingleProduct(Qualifying(s, base, flags.(singleProduct := false))).Err?
            <==> MissingNegativeControl(s, base, flags)
  {
    var d := Qualifying(s, base, flags.(singleProduct := false));
    if MissingNegativeControl(s, base, flags) {
      var p :| p in s && Holds(p, base) && PassesFlagFilters(p, flags) && p.negativeControlAmplimers.None?;
      assert p in d;
    }
  }

  /**
   * What a query returns, for every primer list, base condition and set of
   * enabled filters: AttributeError when the single-product filter meets a
   * primer without a negative-control count, otherwise exactly the primers,
   * in dictionary order, that meet the base condition and pass every
   * enabled filter.
   */
  lemma QueryMeaning(s: seq<Primer>, base: Criterion, flags: QueryFlags)
    ensures ApplyFilters(Select(s, base), flags)
         == if MissingNegativeControl(s, base, flags) then Err(AttributeError) else Ok(Qualifying(s, base, flags))
  {
    var nf := flags.(singleProduct := false);
    var d := FlagFilters(Select(s, base), flags);
    FlagFiltersOfSelect(s, base, flags);
    assert d == Qualifying(s, base, nf);
    if flags.singleProduct {
      SingleProductOfQualifying(s, base, flags);
      SingleProductRaises(s, base, flags);
      assert ApplyFilters(Select(s, base), flags) == SelectSingleProduct(d);
    } else {
      assert nf == flags;
      assert ApplyFilters(Select(s, base), flags) == Ok(d);
    }
  }

  // ------------------------------------------------------------------
  // The three queries

  /** `get_primers_amplify_count(count, ...)`: primers amplifying exactly `count` other genomes. */
  function PrimersAmplifyCount(primers: seq<Primer>, count: int, flags: QueryFlags): (r: Result<seq<Primer>, PyError>)
    ensures r.Err? <==> MissingNegativeControl(primers, AmplifiesCount(count), flags)
    ensures r.Err? ==> r.error == AttributeError
    ensures r.Ok? ==> Subsequence(r.value, primers)
    ensures r.Ok? ==> forall p :: p in r.value <==>
                        p in primers && |p.amplifiesOrganism| == count && PassesEnabled(p, flags)
  {
    QueryMeaning(primers, AmplifiesCount(count), flags);
    QualifyingSubsequence(primers, AmplifiesCount(count), flags);
    ApplyFilters(Select(primers, AmplifiesCount(count)), flags)
  }

  /** `get_unique_primers(...)`: primers amplifying no other genome. */
  function UniquePrimers(primers: seq<Primer>, flags: QueryFlags): (r: Result<seq<Primer>, PyError>)
    ensures r.Ok? ==> forall p :: p in r.value <==>
                        p in primers && p.amplifiesOrganism == {} && PassesEnabled(p, flags)
  {
    PrimersAmplifyCount(primers, 0, flags)
  }

  /**
   * `get_family_unique_primers(family_members, ...)` of the genome `name`:
   * primers whose amplified genomes together with `name` are exactly the family.
   */
  function FamilyUniquePrimers(name: string, primers: seq<Primer>, members: set<string>, flags: QueryFlags)
    : (r: Result<seq<Primer>, PyError>)
    ensures r.Err? <==> MissingNegativeControl(primers, FamilyExactly(name, members), flags)
    ensures r.Err? ==> r.error == AttributeError
    ensures r.Ok? ==> Subsequence(r.value, primers)
    ensures r.Ok? ==> forall p :: p in r.value <==>
                        p in primers && members == {name} + p.amplifiesOrganism && PassesEnabled(p, flags)
  {
    QueryMeaning(primers, FamilyExactly(name, members), flags);
    QualifyingSubsequence(primers, FamilyExactly(name, members), flags);
    ApplyFilters(Select(primers, FamilyExactly(name, members)), flags)
  }

  // ------------------------------------------------------------------
  // Properties of the queries

  /** With no filter enabled a query removes nothing beyond its base condition. */
  lemma DisabledFiltersRemoveNothing(s: seq<Primer>, base: Criterion)
    ensures ApplyFilters(Select(s, base), NoFilters) == Ok(Select(s, base))
    ensures Qualifying(s, base, NoFilters) == Select(s, base)
  {
    QueryMeaning(s, base, NoFilters);
  }

  /** Every filter enabled in `f1` is enabled in `f2`. */
  predicate FlagsWeaker(f1: QueryFlags, f2: QueryFlags) {
    (f1.cds ==> f2.cds) && (f1.gc3Prime ==> f2.gc3Prime) && (f1.oligo ==> f2.oligo)
    && (f1.blast ==> f2.blast) && (f1.singleProduct ==> f2.singleProduct)
  }

  lemma {:induction false} QualifyingShrinks(s: seq<Primer>, base: Criterion, f1: QueryFlags, f2: QueryFlags)
    requires FlagsWeaker(f1, f2)
    ensures Subsequence(Qualifying(s, base, f2), Qualifying(s, base, f1))
  {
    if s != [] {
      QualifyingShrinks(s[1..], base, f1, f2);
      SubsequenceOfCons(Qualifying(s[1..], base, f2), s[0], Qualifying(s[1..], base, f1));
    }
  }

  /** Enabling more filters can only shrink a query's result, keeping the order. */
  lemma MoreFiltersFewerPrimers(primers: seq<Primer>, count: int, f1: QueryFlags, f2: QueryFlags)
    requires FlagsWeaker(f1, f2)
    requires PrimersAmplifyCount(primers, count, f1).Ok? && PrimersAmplifyCount(primers, count, f2).Ok?
    ensures Subsequence(PrimersAmplifyCount(primers, count, f2).value, PrimersAmplifyCount(primers, count, f1).value)
  {
    QueryMeaning(primers, AmplifiesCount(count), f1);
    QueryMeaning(primers, AmplifiesCount(count), f2);
    QualifyingShrinks(primers, AmplifiesCount(count), f1, f2);
  }

  lemma {:induction false} SelectSameCondition(s: seq<Primer>, c1: Criterion, c2: Criterion)
    requires forall p :: p in s ==> Holds(p, c1) == Holds(p, c2)
    ensures Select(s, c1) == Select(s, c2)
  {
    if s != [] {
      assert s[0] in s;
      assert forall p :: p in s[1..] ==> p in s;
      SelectSameCondition(s[1..], c1, c2);
    }
  }

  /**
   * When no primer of genome `name` claims to amplify `name` itself, the
   * family query for the one-member family `{name}` is the unique query.
   */
  lemma FamilySingletonIsUnique(name: string, primers: seq<Primer>, flags: QueryFlags)
    requires forall p :: p in primers ==> name !in p.amplifiesOrganism
    ensures FamilyUniquePrimers(name, primers, {name}, flags) == UniquePrimers(primers, flags)
  {
    SelectSameCondition(primers, FamilyExactly(name, {name}), AmplifiesCount(0));
  }
}
