/**
 * A candidate primer pair as the pipeline keeps it: the design that
 * ePrimer3 predicted, and the classification fields that `load_primers`
 * adds to it and the filters and the cross-amplification step update.
 * Also the per-primer filter decisions and the naming conventions that
 * tie a primer, its BLAST queries and its genome together.
 */
module Primers {
  import opened Wrappers
  import opened PyStr

  /** What ePrimer3 predicted for one pair; positions and sequences as read from its output. */
  datatype PrimerDesign = PrimerDesign(
    forwardSeq: string,
    reverseSeq: string,
    oligoSeq: Option<string>,  // the internal hybridisation oligo; None when ePrimer3 predicted none
    forwardStart: int,
    reverseStart: int,
    reverseLength: int)

  /** A primer pair with all the attributes that `load_primers` attaches to it. */
  datatype Primer = Primer(
    name: string,
    design: PrimerDesign,
    cdsOverlap: bool,
    gc3PrimeValid: bool,
    oligoValid: bool,
    blastPass: bool,
    amplifiesOrganism: set<string>,
    amplifiesFamily: set<string>,
    negativeControlAmplimers: Option<nat>)  // None until a negative-control search reports the primer

  /** The marker between the genome name and the counter in a primer name. */
  const PrimerMarker: string := "_primer_"

  /** `"%s_primer_%04d" % (genome, count)`. */
  function PrimerName(genome: string, count: nat): string {
    genome + PrimerMarker + Format04(count)
  }

  /** The primer as `load_primers` creates it: named, no CDS overlap, every other filter passed, nothing amplified. */
  function NewPrimer(genome: string, count: nat, design: PrimerDesign): (p: Primer)
    ensures p.name == PrimerName(genome, count) && p.design == design
    ensures !p.cdsOverlap && p.gc3PrimeValid && p.oligoValid && p.blastPass
    ensures p.amplifiesOrganism == {} && p.amplifiesFamily == {}
    ensures p.negativeControlAmplimers == None
  {
    Primer(PrimerName(genome, count), design, false, true, true, true, {}, {}, None)
  }

  /** Two primers of one genome with different counters have different names. */
  lemma PrimerNamesDiffer(genome: string, m: nat, n: nat)
    requires m != n
    ensures PrimerName(genome, m) != PrimerName(genome, n)
  {
    Format04Injective(m, n);
    var a, b := PrimerName(genome, m), PrimerName(genome, n);
    assert a[|genome| + |PrimerMarker|..] == Format04(m);
    assert b[|genome| + |PrimerMarker|..] == Format04(n);
  }

  // ------------------------------------------------------------------
  // 3' GC filter

  /** Occurrences of one base in a string. */
  function BaseCount(s: string, base: char): nat {
    Count(s, [base])
  }

  /**
   * The 3' GC test as written: G+C in the last five bases of the forward
   * primer above 2, or C of the reverse primer's last five plus G of the
   * FORWARD primer's last five above 2.
   */
  predicate Gc3PrimeFails(forwardSeq: string, reverseSeq: string) {
    var f := LastChars(forwardSeq, 5);
    var r := LastChars(reverseSeq, 5);
    BaseCount(f, 'C') + BaseCount(f, 'G') > 2 || BaseCount(r, 'C') + BaseCount(f, 'G') > 2
  }

  /** One iteration of `filter_primers_gc_3prime`: clears `gc3PrimeValid` when the test fails. */
  function Gc3PrimeChecked(p: Primer): (q: Primer)
    ensures q.gc3PrimeValid == (p.gc3PrimeValid && !Gc3PrimeFails(p.design.forwardSeq, p.design.reverseSeq))
    ensures q == p.(gc3PrimeValid := q.gc3PrimeValid)
  {
    if Gc3PrimeFails(p.design.forwardSeq, p.design.reverseSeq) then p.(gc3PrimeValid := false) else p
  }

  /** The test reads no G of the reverse primer: reverse primers with the same 3' C count get the same verdict. */
  lemma Gc3PrimeIgnoresReverseG(forwardSeq: string, r1: string, r2: string)
    requires BaseCount(LastChars(r1, 5), 'C') == BaseCount(LastChars(r2, 5), 'C')
    ensures Gc3PrimeFails(forwardSeq, r1) == Gc3PrimeFails(forwardSeq, r2)
  {
  }

  /** An example: a reverse primer ending in five G passes when the forward 3' end is A/T. */
  lemma Gc3PrimeQuirkExample()
    ensures !Gc3PrimeFails("AAAAA", "GGGGG")
  {
    assert LastChars("AAAAA", 5) == "AAAAA";
    assert LastChars("GGGGG", 5) == "GGGGG";
    OccursSingle("AAAAA", 'C');
    OccursSingle("AAAAA", 'G');
    OccursSingle("GGGGG", 'C');
    CountPositiveIffContains("AAAAA", "C");
    CountPositiveIffContains("AAAAA", "G");
    CountPositiveIffContains("GGGGG", "C");
  }

  // ------------------------------------------------------------------
  // Internal oligo filter

  /**
   * The internal-oligo test, with Python's short-circuit `or`: starts with
   * G, ends with G, more than one "CC" in `seq[1:-1]`, or G as second
   * base. Only the last test indexes the string, so only an oligo shorter
   * than two bases that passes the first three raises IndexError.
   */
  function OligoFails(oligo: string): (r: Result<bool, PyError>)
    ensures r.Err? <==> |oligo| < 2 && !StartsWith(oligo, "G") && !EndsWith(oligo, "G")
    ensures r.Err? ==> r.error == IndexError
  {
    if StartsWith(oligo, "G") || EndsWith(oligo, "G") || Count(Interior(oligo), "CC") > 1 then Ok(true)
    else if |oligo| < 2 then Err(IndexError)
    else Ok(oligo[1] == 'G')
  }

  /**
   * The oligo is rejected exactly when one of the four shape rules holds;
   * the "CC" rule means two non-overlapping "CC" in the interior.
   */
  lemma OligoFailsMeans(oligo: string)
    requires |oligo| >= 2
    ensures OligoFails(oligo) == Ok(oligo[0] == 'G' || oligo[|oligo| - 1] == 'G' || oligo[1] == 'G'
                                  || exists i, j :: OccursAt(Interior(oligo), "CC", i) && i + 2 <= j
                                                    && OccursAt(Interior(oligo), "CC", j))
  {
    CountAboveOneIffTwoDisjoint(Interior(oligo), "CC");
    assert StartsWith(oligo, "G") <==> oligo[0] == 'G' by { assert oligo[0..1] == [oligo[0]]; }
    assert EndsWith(oligo, "G") <==> oligo[|oligo| - 1] == 'G' by { assert oligo[|oligo| - 1..|oligo|] == [oligo[|oligo| - 1]]; }
  }

  /**
   * One iteration of `filter_primers_oligo`: clears `oligoValid` when the
   * oligo fails; AttributeError on a design without an oligo, IndexError
   * on a short oligo.
   */
  function OligoChecked(p: Primer): (r: Result<Primer, PyError>)
    ensures r.Ok? <==> p.design.oligoSeq.Some? && OligoFails(p.design.oligoSeq.value).Ok?
    ensures p.design.oligoSeq.None? ==> r == Err(AttributeError)
    ensures p.design.oligoSeq.Some? && r.Err? ==> r.error == IndexError
    ensures r.Ok? ==> r.value == p.(oligoValid := p.oligoValid && !OligoFails(p.design.oligoSeq.value).value)
  {
    match p.design.oligoSeq
    case None => Err(AttributeError)
    case Some(oligo) =>
      match OligoFails(oligo)
      case Err(e) => Err(e)
      case Ok(fails) => Ok(if fails then p.(oligoValid := false) else p)
  }

  // ------------------------------------------------------------------
  // BLAST screen naming

  /** The FASTA ids written for a primer's two BLAST queries: `name + '_forward'` and `name + '_reverse'`. */
  function BlastQueryIds(name: string): seq<string> {
    [name + "_forward", name + "_reverse"]
  }

  /** `'_'.join(query.split('_')[:-1])`: the query id without its last `_` piece. */
  function QueryPrimerName(query: string): string {
    DropLastPiece(query, "_")
  }

  /** Both BLAST query ids of a primer lead back to the primer's name, whatever `_` the name holds. */
  lemma QueryIdsRoundTrip(name: string)
    ensures forall q :: q in BlastQueryIds(name) ==> QueryPrimerName(q) == name
  {
    QueryIdName(name, "_forward");
    QueryIdName(name, "_reverse");
  }

  /** A query id made of the name, '_' and a suffix without '_' leads back to the name. */
  lemma QueryIdName(name: string, tail: string)
    requires |tail| > 0 && tail[0] == '_' && '_' !in tail[1..]
    ensures QueryPrimerName(name + tail) == name
  {
    DropLastPieceOfAppend(name, '_', tail[1..]);
    assert name + tail == name + ['_'] + tail[1..];
  }

  /** `name.split('_primer_')[0]`: the genome a primer name belongs to. */
  function OwnerGenome(name: string): string {
    Split(name, PrimerMarker)[0]
  }

  /**
   * The owner of a primer name is the genome it was built from, provided
   * the marker does not already occur in `genome + "_primer"` (it cannot
   * start at or after the end of the genome name otherwise).
   */
  lemma OwnerOfPrimerName(genome: string, count: nat)
    requires !Contains(genome + "_primer", PrimerMarker)
    ensures OwnerGenome(PrimerName(genome, count)) == genome
  {
    var s := PrimerName(genome, count);
    var d := Format04(count);
    assert s == genome + PrimerMarker + d;
    forall j | 0 <= j < |genome|
      ensures !OccursAt(s, PrimerMarker, j)
    {
      var t := genome + "_primer";
      if j + 8 <= |t| {
        assert s[j..j + 8] == t[j..j + 8];
        assert !OccursAt(t, PrimerMarker, j);
      }
    }
    FirstPieceBeforeMarker(genome, PrimerMarker, d);
  }

  /** A genome name without '_' satisfies the condition of `OwnerOfPrimerName`. */
  lemma UnderscoreFreeGenomeNames(genome: string)
    requires '_' !in genome
    ensures !Contains(genome + "_primer", PrimerMarker)
  {
    var t := genome + "_primer";
    forall j | 0 <= j <= |t|
      ensures !OccursAt(t, PrimerMarker, j)
    {
      if j + 8 <= |t| {
        assert t[j..j + 8][0] == t[j];
        if j < |genome| {
          assert t[j] == genome[j];
        }
      }
    }
  }

  // ------------------------------------------------------------------
  // Uniqueness of names within a genome (dictionary keys)

  /** The primer names of a table, in order. */
  function Names(primers: seq<Primer>): (r: seq<string>)
    ensures |r| == |primers| && forall i :: 0 <= i < |primers| ==> r[i] == primers[i].name
  {
    if primers == [] then [] else [primers[0].name] + Names(primers[1..])
  }

  /** Tables whose primers have the same names, position by position, have the same names. */
  lemma SameNames(a: seq<Primer>, b: seq<Primer>)
    requires |a| == |b| && forall i :: 0 <= i < |a| ==> a[i].name == b[i].name
    ensures Names(a) == Names(b)
  {
  }

  /** No two primers of a table share a name, as for the keys of a dictionary. */
  predicate UniqueNames(primers: seq<Primer>) {
    forall i, j :: 0 <= i < j < |primers| ==> primers[i].name != primers[j].name
  }
  /** Whether the names are unique depends on the names alone. */
  lemma UniqueBySameNames(a: seq<Primer>, b: seq<Primer>)
    requires UniqueNames(a) && Names(b) == Names(a)
    ensures UniqueNames(b)
  {
    forall i, j | 0 <= i < j < |b|
      ensures b[i].name != b[j].name
    {
      assert Names(b)[i] == a[i].name && Names(b)[j] == a[j].name;
    }
  }

  /** The position of the primer called `name`, if there is one. */
  function IndexOf(primers: seq<Primer>, name: string): (r: Option<nat>)
    ensures r.Some? ==> r.value < |primers| && primers[r.value].name == name
    ensures r.None? ==> name !in Names(primers)
  {
    if primers == [] then None
    else if primers[0].name == name then Some(0)
    else match IndexOf(primers[1..], name)
      case None => None
      case Some(k) => Some(k + 1)
  }
}
