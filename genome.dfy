/**
 * `GenomeData`: one genome of the comparison, the files describing it and
 * the dictionary of its primer pairs, keyed by primer name. The pipeline
 * fills the dictionary once (`load_primers`) and then updates the primers'
 * flags in place (`filter_primers`, `filter_primers_gc_3prime`,
 * `filter_primers_oligo`).
 */
module Genome {
  import opened Wrappers
  import opened PyStr
  import opened Primers

  /** A config value: '-' stands for "not given". */
  function Dashed(s: string): (r: Option<string>)
    ensures r.None? <==> s == "-"
    ensures r.Some? ==> r.value == s
  {
    if s == "-" then None else Some(s)
  }

  /** `gddict[genome]` where `gddict` was built with `setdefault`: the first genome of that name. */
  function Resolve(gdlist: seq<GenomeData>, genome: string): (r: Option<GenomeData>)
    ensures r.None? <==> forall g :: g in gdlist ==> g.name != genome
    ensures r.Some? ==> r.value in gdlist && r.value.name == genome
    ensures r.Some? ==> exists i :: 0 <= i < |gdlist| && gdlist[i] == r.value
                                   && forall j :: 0 <= j < i ==> gdlist[j].name != genome
  {
    if gdlist == [] then None
    else if gdlist[0].name == genome then Some(gdlist[0])
    else
      var r := Resolve(gdlist[1..], genome);
      assert forall g :: g in gdlist ==> g == gdlist[0] || g in gdlist[1..];
      if r.Some? then
        var i :| 0 <= i < |gdlist[1..]| && gdlist[1..][i] == r.value
                 && forall j :: 0 <= j < i ==> gdlist[1..][j].name != genome;
        assert gdlist[i + 1] == r.value && forall j :: 0 <= j < i + 1 ==> gdlist[j].name != genome;
        r
      else r
  }

  /** The primers `load_primers` builds from one genome's predicted pairs, counting from 1. */
  function NewPrimers(genome: string, designs: seq<PrimerDesign>): (r: seq<Primer>)
    ensures |r| == |designs|
    ensures forall i :: 0 <= i < |designs| ==> r[i] == NewPrimer(genome, i + 1, designs[i])
    ensures UniqueNames(r)
  {
    var r := seq(|designs|, i requires 0 <= i < |designs| => NewPrimer(genome, i + 1, designs[i]));
    assert forall i, j :: 0 <= i < j < |r| ==> r[i].name != r[j].name by {
      forall i, j | 0 <= i < j < |r| ensures r[i].name != r[j].name {
        PrimerNamesDiffer(genome, i + 1, j + 1);
      }
    }
    r
  }

  /** The primers of `ps`, in order, whose names are not in `taken`. */
  function FreshOnly(ps: seq<Primer>, taken: seq<string>): (r: seq<Primer>)
    ensures forall p :: p in r <==> p in ps && p.name !in taken
  {
    if ps == [] then []
    else
      var last := ps[|ps| - 1];
      assert ps == ps[..|ps| - 1] + [last];
      FreshOnly(ps[..|ps| - 1], taken) + (if last.name in taken then [] else [last])
  }

  lemma NamesAppend(a: seq<Primer>, b: seq<Primer>)
    ensures Names(a + b) == Names(a) + Names(b)
  {
  }

  lemma NameInNames(ps: seq<Primer>, n: string)
    ensures n in Names(ps) <==> exists p :: p in ps && p.name == n
  {
    if n in Names(ps) {
      var i :| 0 <= i < |ps| && Names(ps)[i] == n;
      assert ps[i] in ps;
    }
  }

  lemma FreshOnlySnoc(ps: seq<Primer>, p: Primer, taken: seq<string>)
    ensures FreshOnly(ps + [p], taken) == FreshOnly(ps, taken) + (if p.name in taken then [] else [p])
  {
    assert (ps + [p])[..|ps|] == ps;
  }

  lemma {:induction false} FreshOnlyNothingTaken(ps: seq<Primer>)
    ensures FreshOnly(ps, []) == ps
  {
    if ps != [] {
      FreshOnlyNothingTaken(ps[..|ps| - 1]);
      assert ps == ps[..|ps| - 1] + [ps[|ps| - 1]];
    }
  }

  /** Appending a primer whose name is not yet a key keeps the keys unique. */
  lemma AppendNewName(cur: seq<Primer>, p: Primer)
    requires UniqueNames(cur) && p.name !in Names(cur)
    ensures UniqueNames(cur + [p])
  {
    forall i | 0 <= i < |cur|
      ensures cur[i].name != p.name
    {
      assert Names(cur)[i] == cur[i].name;
    }
  }

  /** The primer numbered `k + 1` is named unlike every primer numbered before it. */
  lemma NextNameIsNew(genome: string, designs: seq<PrimerDesign>, k: nat)
    requires k < |designs|
    ensures NewPrimers(genome, designs[..k + 1]) == NewPrimers(genome, designs[..k]) + [NewPrimer(genome, k + 1, designs[k])]
    ensures PrimerName(genome, k + 1) !in Names(NewPrimers(genome, designs[..k]))
  {
    NewPrimersSnoc(genome, designs, k);
    var earlier := NewPrimers(genome, designs[..k]);
    forall i | 0 <= i < |earlier|
      ensures Names(earlier)[i] != PrimerName(genome, k + 1)
    {
      PrimerNamesDiffer(genome, i + 1, k + 1);
    }
  }

  lemma NewPrimersSnoc(genome: string, designs: seq<PrimerDesign>, k: nat)
    requires k < |designs|
    ensures NewPrimers(genome, designs[..k + 1]) == NewPrimers(genome, designs[..k]) + [NewPrimer(genome, k + 1, designs[k])]
  {
    var a := NewPrimers(genome, designs[..k + 1]);
    var b := NewPrimers(genome, designs[..k]) + [NewPrimer(genome, k + 1, designs[k])];
    forall i | 0 <= i < |a|
      ensures a[i] == b[i]
    {
      assert designs[..k + 1][i] == designs[i];
      if i < k {
        assert designs[..k][i] == designs[i];
      }
    }
  }

  /** A name that no primer of `ps` has is not among the fresh ones either. */
  lemma FreshNames(ps: seq<Primer>, taken: seq<string>, n: string)
    requires n !in Names(ps)
    ensures n !in Names(FreshOnly(ps, taken))
  {
    NameInNames(FreshOnly(ps, taken), n);
    NameInNames(ps, n);
  }

  /** The fresh primers among the first `k + 1` are those among the first `k`, and the next one if its name is not taken. */
  lemma NextFresh(genome: string, designs: seq<PrimerDesign>, k: nat, taken: seq<string>)
    requires k < |designs|
    ensures var p := NewPrimer(genome, k + 1, designs[k]);
            && FreshOnly(NewPrimers(genome, designs[..k + 1]), taken)
               == FreshOnly(NewPrimers(genome, designs[..k]), taken) + (if p.name in taken then [] else [p])
            && p.name !in Names(FreshOnly(NewPrimers(genome, designs[..k]), taken))
  {
    var p := NewPrimer(genome, k + 1, designs[k]);
    var earlier := NewPrimers(genome, designs[..k]);
    NextNameIsNew(genome, designs, k);
    FreshOnlySnoc(earlier, p, taken);
    FreshNames(earlier, taken, p.name);
  }

  /** One turn of the loading loop keeps the table equal to the primers loaded so far that were new. */
  lemma LoadStep(genome: string, designs: seq<PrimerDesign>, k: nat, base: seq<Primer>, taken: seq<string>)
    requires k < |designs| && taken == Names(base)
    ensures var cur := base + FreshOnly(NewPrimers(genome, designs[..k]), taken);
            var p := NewPrimer(genome, k + 1, designs[k]);
            base + FreshOnly(NewPrimers(genome, designs[..k + 1]), taken)
              == if p.name in Names(cur) then cur else cur + [p]
  {
    var p := NewPrimer(genome, k + 1, designs[k]);
    NextFresh(genome, designs, k, taken);
    AddIfNew(base, FreshOnly(NewPrimers(genome, designs[..k]), taken),
             FreshOnly(NewPrimers(genome, designs[..k + 1]), taken), p);
  }

  /** Adding `p` to the fresh primers when its name is not taken adds it to the table exactly when its name is new there. */
  lemma AddIfNew(base: seq<Primer>, added: seq<Primer>, next: seq<Primer>, p: Primer)
    requires next == added + (if p.name in Names(base) then [] else [p])
    requires p.name !in Names(added)
    ensures base + next == if p.name in Names(base + added) then base + added else base + added + [p]
  {
    NamesAppend(base, added);
    assert Names(base + added) == Names(base) + Names(added);
  }

  /** The ids, other than the CDS id -1, of one cluster. */
  function PrimerIds(ids: seq<int>): set<int> {
    set i | i in ids && i != -1
  }

  /** The union of the primer ids of all clusters. */
  function OverlapIds(regions: seq<seq<int>>): set<int> {
    if regions == [] then {} else OverlapIds(regions[..|regions| - 1]) + PrimerIds(regions[|regions| - 1])
  }

  /** A primer is flagged exactly when some cluster holds its id, whether or not that cluster holds a CDS. */
  lemma {:induction false} OverlapIdsMeaning(regions: seq<seq<int>>, k: int)
    ensures k in OverlapIds(regions) <==> k != -1 && exists r :: r in regions && k in r
  {
    if regions != [] {
      var front := regions[..|regions| - 1];
      OverlapIdsMeaning(front, k);
      assert regions == front + [regions[|regions| - 1]];
      if k != -1 && exists r :: r in regions && k in r {
        var r :| r in regions && k in r;
        if r != regions[|regions| - 1] {
          assert r in front;
        }
      }
    }
  }

  /** The table after `filter_primers_gc_3prime`. */
  function Gc3Filtered(ps: seq<Primer>): (r: seq<Primer>)
    ensures |r| == |ps| && Names(r) == Names(ps)
    ensures forall i :: 0 <= i < |ps| ==> r[i] == Gc3PrimeChecked(ps[i])
  {
    var r := seq(|ps|, i requires 0 <= i < |ps| => Gc3PrimeChecked(ps[i]));
    assert Names(r) == Names(ps);
    r
  }

  /** Filtering on 3' GC a second time changes nothing. */
  lemma Gc3FilterIdempotent(ps: seq<Primer>)
    ensures Gc3Filtered(Gc3Filtered(ps)) == Gc3Filtered(ps)
  {
  }

  /**
   * The table after `filter_primers_oligo`, or the error its loop raises at
   * the first primer without an oligo or with a too-short one.
   */
  function OligoFiltered(ps: seq<Primer>): (r: Result<seq<Primer>, PyError>)
    ensures r.Ok? <==> forall i :: 0 <= i < |ps| ==> OligoChecked(ps[i]).Ok?
    ensures r.Err? ==> exists k :: 0 <= k < |ps| && OligoChecked(ps[k]) == Err(r.error)
                                  && forall i :: 0 <= i < k ==> OligoChecked(ps[i]).Ok?
    ensures r.Ok? ==> |r.value| == |ps| && Names(r.value) == Names(ps)
    ensures r.Ok? ==> forall i :: 0 <= i < |ps| ==> r.value[i] == OligoChecked(ps[i]).value
  {
    if ps == [] then Ok([])
    else
      match OligoChecked(ps[0])
      case Err(e) => Err(e)
      case Ok(q) =>
        match OligoFiltered(ps[1..])
        case Err(e) => Err(e)
        case Ok(rest) =>
          assert forall i :: 1 <= i < |ps| ==> ps[i] == ps[1..][i - 1];
          Ok([q] + rest)
  }

  /** Filtering on the oligo a second time changes nothing. */
  lemma OligoFilterIdempotent(ps: seq<Primer>)
    requires OligoFiltered(ps).Ok?
    ensures OligoFiltered(OligoFiltered(ps).value) == OligoFiltered(ps)
  {
    var once := OligoFiltered(ps).value;
    forall i | 0 <= i < |once|
      ensures OligoChecked(once[i]).Ok? && once[i] == OligoChecked(once[i]).value
    {
      OligoCheckedTwice(ps[i]);
    }
    OligoCheckedAll(once, once);
  }

  /** Checking a primer's oligo a second time changes nothing. */
  lemma OligoCheckedTwice(p: Primer)
    requires OligoChecked(p).Ok?
    ensures OligoChecked(OligoChecked(p).value) == OligoChecked(p)
  {
  }

  /** The first `k` primers of `cur` are those of `orig` after the oligo check; the others are untouched. */
  ghost predicate OligoCheckedUpTo(orig: seq<Primer>, cur: seq<Primer>, k: nat) {
    && k <= |orig| && |cur| == |orig|
    && (forall i :: 0 <= i < k ==> OligoChecked(orig[i]).Ok? && cur[i] == OligoChecked(orig[i]).value)
    && (forall i :: k <= i < |cur| ==> cur[i] == orig[i])
  }

  /** Checking one more primer extends the checked prefix by one. */
  lemma OligoCheckStep(orig: seq<Primer>, cur: seq<Primer>, k: nat, q: Primer)
    requires OligoCheckedUpTo(orig, cur, k) && k < |orig| && OligoChecked(cur[k]) == Ok(q)
    ensures OligoCheckedUpTo(orig, cur[k := q], k + 1)
  {
  }

  /** A partly checked table keeps every name where it was. */
  lemma OligoCheckedNames(orig: seq<Primer>, cur: seq<Primer>, k: nat)
    requires OligoCheckedUpTo(orig, cur, k)
    ensures Names(cur) == Names(orig)
    ensures UniqueNames(orig) ==> UniqueNames(cur)
  {
    assert forall i :: 0 <= i < |cur| ==> cur[i].name == orig[i].name;
  }

  /** A table checked to the end is the filtered table. */
  lemma OligoCheckedAll(orig: seq<Primer>, cur: seq<Primer>)
    requires OligoCheckedUpTo(orig, cur, |orig|)
    ensures OligoFiltered(orig) == Ok(cur)
  {
    var r := OligoFiltered(orig).value;
    assert forall i :: 0 <= i < |orig| ==> r[i] == cur[i];
    assert r == cur;
  }

  /** A primer whose check raises makes the whole filter raise. */
  lemma OligoCheckStops(orig: seq<Primer>, cur: seq<Primer>, k: nat)
    requires OligoCheckedUpTo(orig, cur, k) && k < |orig| && OligoChecked(cur[k]).Err?
    ensures OligoFiltered(orig).Err?
  {
    assert OligoChecked(orig[k]).Err?;
  }

  class GenomeData {
    const name: string
    const families: Option<seq<string>>
    const seqFilename: Option<string>
    const ftFilename: Option<string>
    const primerFilename: Option<string>
    const primersearchFilename: Option<string>
    /** The primer dictionary, in insertion order. */
    var primers: seq<Primer>
    /** The PrimerSearch result files to classify; None until they are listed. */
    var primersearchOutput: Option<seq<string>>

    /** Dictionary keys are unique. */
    ghost predicate Valid()
      reads this
    {
      UniqueNames(primers)
    }

    /** `GenomeData(name, families, ...)` from six config values; families are comma-separated. */
    constructor (name: string, families: string, seqFilename: string, ftFilename: string,
                 primerFilename: string, primersearchFilename: string)
      ensures this.name == name
      ensures this.families == if families == "-" then None else Some(Split(families, ","))
      ensures this.seqFilename == Dashed(seqFilename) && this.ftFilename == Dashed(ftFilename)
      ensures this.primerFilename == Dashed(primerFilename)
      ensures this.primersearchFilename == Dashed(primersearchFilename)
      ensures primers == [] && primersearchOutput == None
      ensures Valid()
    {
      this.name := name;
      this.families := if families == "-" then None else Some(Split(families, ","));
      this.seqFilename := Dashed(seqFilename);
      this.ftFilename := Dashed(ftFilename);
      this.primerFilename := Dashed(primerFilename);
      this.primersearchFilename := Dashed(primersearchFilename);
      primers := [];
      primersearchOutput := None;
    }

    /**
     * The loading loop of `load_primers`: each predicted pair in turn gets
     * the next counter value, its name and the default flags, and is added
     * with `setdefault`; then its amplicon is cut from the genome sequence.
     * A genome without a primer file raises IOError. A genome without a
     * sequence file never had `sequence` assigned, so the amplicon read of
     * its first primer raises AttributeError, that primer already added.
     */
    method LoadPrimers(designs: seq<PrimerDesign>) returns (ok: bool)
      requires Valid()
      modifies this
      ensures ok <==> primerFilename.Some? && (seqFilename.Some? || designs == [])
      ensures ok ==> primers == old(primers) + FreshOnly(NewPrimers(name, designs), Names(old(primers)))
      ensures ok && old(primers) == [] ==> primers == NewPrimers(name, designs)
      ensures primerFilename.None? ==> primers == old(primers)
      ensures primerFilename.Some? && !ok ==>
                primers == old(primers) + FreshOnly(NewPrimers(name, designs[..1]), Names(old(primers)))
      ensures primersearchOutput == old(primersearchOutput)
      ensures Valid()
    {
      if primerFilename.None? {
        return false;
      }
      ok := true;
      ghost var base := primers;
      ghost var taken := Names(primers);
      var k := 0;
      while k < |designs|
        invariant 0 <= k <= |designs|
        invariant primers == base + FreshOnly(NewPrimers(name, designs[..k]), taken)
        invariant primersearchOutput == old(primersearchOutput)
        invariant seqFilename.None? ==> k == 0
        invariant Valid()
      {
        var p := NewPrimer(name, k + 1, designs[k]);
        LoadStep(name, designs, k, base, taken);
        SetDefault(p);
        if seqFilename.None? {
          ok := false;
          break;
        }
        k := k + 1;
      }
      if ok {
        assert designs[..k] == designs;
        FreshOnlyNothingTaken(NewPrimers(name, designs));
      }
    }

    /** `primers.setdefault(p.name, p)`: adds `p` unless its name is already a key. */
    method SetDefault(p: Primer)
      requires Valid()
      modifies this
      ensures primers == if p.name in Names(old(primers)) then old(primers) else old(primers) + [p]
      ensures primersearchOutput == old(primersearchOutput)
      ensures Valid()
    {
      match IndexOf(primers, p.name)
      case None =>
        AppendNewName(primers, p);
        primers := primers + [p];
      case Some(i) =>
        assert Names(primers)[i] == p.name;
    }

    /**
     * The clean-up step of `filter_primers`: the clusters of CDS (id -1)
     * and primer regions are given; every primer id found in any cluster
     * is collected, and those primers get `cdsOverlap` set.
     */
    method MarkCdsOverlap(regions: seq<seq<int>>)
      requires Valid()
      requires forall r :: r in regions ==> forall i :: i in r ==> i == -1 || 0 <= i < |primers|
      modifies this
      ensures |primers| == |old(primers)|
      ensures forall k :: 0 <= k < |primers| ==>
                primers[k] == old(primers)[k].(cdsOverlap := old(primers)[k].cdsOverlap || k in OverlapIds(regions))
      ensures primersearchOutput == old(primersearchOutput)
      ensures Valid()
    {
      var ids: set<int> := {};
      var n := 0;
      while n < |regions|
        invariant 0 <= n <= |regions|
        invariant ids == OverlapIds(regions[..n])
      {
        assert regions[..n + 1][..n] == regions[..n];
        ids := ids + PrimerIds(regions[n]);
        n := n + 1;
      }
      assert regions[..n] == regions;
      forall k | k in ids
        ensures 0 <= k < |primers|
      {
        OverlapIdsMeaning(regions, k);
      }
      var todo := ids;
      while todo != {}
        invariant todo <= ids
        invariant |primers| == |old(primers)|
        invariant forall k :: 0 <= k < |primers| ==>
                    primers[k] == old(primers)[k].(cdsOverlap := old(primers)[k].cdsOverlap || (k in ids && k !in todo))
        invariant primersearchOutput == old(primersearchOutput)
        decreases todo
      {
        var i :| i in todo;
        primers := primers[i := primers[i].(cdsOverlap := true)];
        todo := todo - {i};
      }
      assert forall i :: 0 <= i < |primers| ==> primers[i].name == old(primers)[i].name;
    }

    /** `filter_primers_gc_3prime`: each primer's `gc3PrimeValid` is cleared when its 3' ends fail the test. */
    method FilterGc3Prime()
      requires Valid()
      modifies this
      ensures primers == Gc3Filtered(old(primers))
      ensures primersearchOutput == old(primersearchOutput)
      ensures Valid()
    {
      var k := 0;
      while k < |primers|
        invariant 0 <= k <= |primers| && |primers| == |old(primers)|
        invariant forall i :: 0 <= i < k ==> primers[i] == Gc3PrimeChecked(old(primers)[i])
        invariant forall i :: k <= i < |primers| ==> primers[i] == old(primers)[i]
        invariant primersearchOutput == old(primersearchOutput)
      {
        primers := primers[k := Gc3PrimeChecked(primers[k])];
        k := k + 1;
      }
      assert Names(primers) == Names(Gc3Filtered(old(primers)));
    }

    /**
     * `filter_primers_oligo`: each primer's `oligoValid` is cleared when its
     * oligo fails the shape test; a too-short oligo raises IndexError and
     * ends the run (`ok` false), the primers before it already updated.
     */
    method FilterOligo() returns (ok: bool)
      requires Valid()
      modifies this
      ensures ok <==> OligoFiltered(old(primers)).Ok?
      ensures ok ==> primers == OligoFiltered(old(primers)).value
      ensures !ok ==> exists k: nat :: k < |primers| && OligoCheckedUpTo(old(primers), primers, k)
                                  && OligoChecked(old(primers)[k]).Err?
      ensures Names(primers) == Names(old(primers))
      ensures primersearchOutput == old(primersearchOutput)
      ensures Valid()
    {
      var k := 0;
      ok := true;
      while k < |primers|
        invariant OligoCheckedUpTo(old(primers), primers, k)
        invariant primersearchOutput == old(primersearchOutput)
      {
        match OligoChecked(primers[k])
        case Err(_) =>
          OligoCheckStops(old(primers), primers, k);
          assert k < |primers| && OligoCheckedUpTo(old(primers), primers, k);
          ok := false;
          break;
        case Ok(q) =>
          OligoCheckStep(old(primers), primers, k, q);
          primers := primers[k := q];
        k := k + 1;
      }
      OligoCheckedNames(old(primers), primers, k);
      if ok {
        OligoCheckedAll(old(primers), primers);
      }
    }

  }
}
