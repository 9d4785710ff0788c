/**
 * The BLAST screen's decisions: which queries make a strong enough hit
 * (`process_blastxml`) and how each failing query is traced back to its
 * primer and genome, whose `blastPass` flag is cleared (`parse_blast`).
 */
module Blast {
  import opened Wrappers
  import opened Primers
  import opened Genome

  /**
   * One record of a BLAST XML report, reduced to what the screen reads: the
   * query id, the query length, and for each alignment the identities of
   * its HSPs, best first.
   */
  datatype BlastRecord = BlastRecord(query: string, queryLetters: nat, alignments: seq<seq<nat>>)

  /**
   * Whether a record marks its query as failing: there is an alignment and
   * the identities of its first HSP cover at least 90% of the query. An
   * alignment without HSPs raises IndexError, a zero-length query
   * ZeroDivisionError.
   */
  function HitDecision(rec: BlastRecord): (r: Result<bool, PyError>)
    ensures r.Err? <==> |rec.alignments| > 0 && (|rec.alignments[0]| == 0 || rec.queryLetters == 0)
    ensures r.Ok? && r.value <==>
              |rec.alignments| > 0 && |rec.alignments[0]| > 0 && rec.queryLetters > 0
              && (rec.alignments[0][0] as real) / (rec.queryLetters as real) >= 0.9
  {
    if |rec.alignments| == 0 then Ok(false)
    else if |rec.alignments[0]| == 0 then Err(IndexError)
    else if rec.queryLetters == 0 then Err(ZeroDivisionError)
    else
      RatioAtLeastNineTenths(rec.alignments[0][0], rec.queryLetters);
      Ok(10 * rec.alignments[0][0] >= 9 * rec.queryLetters)
  }

  /** The integer test used for the ratio: `id / len >= 0.9` exactly when `10 * id >= 9 * len`. */
  lemma RatioAtLeastNineTenths(id: nat, len: nat)
    requires len > 0
    ensures (id as real) / (len as real) >= 0.9 <==> 10 * id >= 9 * len
  {
    var q := (id as real) / (len as real);
    var l := len as real;
    assert q * l == id as real;
    if q >= 0.9 {
      MultiplyKeepsOrder(q, 0.9, l);
      assert (10 * id) as real >= (9 * len) as real;
    } else {
      MultiplyKeepsStrictOrder(0.9, q, l);
      assert (10 * id) as real < (9 * len) as real;
    }
  }

  lemma MultiplyKeepsOrder(a: real, b: real, c: real)
    requires a >= b && c > 0.0
    ensures a * c >= b * c
  {
  }

  lemma MultiplyKeepsStrictOrder(a: real, b: real, c: real)
    requires a > b && c > 0.0
    ensures a * c > b * c
  {
  }

  /**
   * The number of records read before the first one whose decision raises:
   * the bare `except` ends the loop there and the set found so far is
   * returned.
   */
  function ReadablePrefix(records: seq<BlastRecord>): (n: nat)
    ensures n <= |records|
    ensures forall i :: 0 <= i < n ==> HitDecision(records[i]).Ok?
    ensures n < |records| ==> HitDecision(records[n]).Err?
  {
    if records == [] || HitDecision(records[0]).Err? then 0
    else 1 + ReadablePrefix(records[1..])
  }

  /** The primer names `process_blastxml` reports for one BLAST output. */
  function BlastFailures(records: seq<BlastRecord>): set<string> {
    set i | 0 <= i < ReadablePrefix(records) && HitDecision(records[i]) == Ok(true) :: QueryPrimerName(records[i].query)
  }

  /** `process_blastxml`: the loop over the records of one BLAST output. */
  method ProcessBlastXml(records: seq<BlastRecord>) returns (matching: set<string>)
    ensures matching == BlastFailures(records)
  {
    matching := {};
    var k := 0;
    while k < |records|
      invariant 0 <= k <= ReadablePrefix(records)
      invariant matching == set i | 0 <= i < k && HitDecision(records[i]) == Ok(true) :: QueryPrimerName(records[i].query)
    {
      match HitDecision(records[k])
      case Err(_) =>
        break;
      case Ok(fails) =>
        if fails {
          matching := matching + {QueryPrimerName(records[k].query)};
        }
      k := k + 1;
    }
  }

  /** A failing primer's name is reported by the screen of its genome whichever of its two queries hit. */
  lemma FailingPrimerReported(records: seq<BlastRecord>, i: nat, name: string)
    requires i < ReadablePrefix(records) && HitDecision(records[i]) == Ok(true)
    requires records[i].query in BlastQueryIds(name)
    ensures name in BlastFailures(records)
  {
    QueryIdsRoundTrip(name);
  }

  // ------------------------------------------------------------------
  // Tracing a failing primer back to its genome

  /** The names in `names` that lead to the genome object `g`. */
  function FailuresOf(gdlist: seq<GenomeData>, g: GenomeData, names: set<string>): set<string> {
    set n | n in names && Resolve(gdlist, OwnerGenome(n)) == Some(g)
  }

  /** A failing name can be applied: its owner genome is known and has a primer of that name. */
  predicate Traceable(gdlist: seq<GenomeData>, n: string)
    reads set g | g in gdlist
  {
    var owner := Resolve(gdlist, OwnerGenome(n));
    owner.Some? && n in Names(owner.value.primers)
  }

  /** The primer table with `blastPass` cleared for the primers named in `names`. */
  function ClearBlast(ps: seq<Primer>, names: set<string>): (r: seq<Primer>)
    ensures |r| == |ps|
    ensures forall i :: 0 <= i < |ps| ==> r[i] == ps[i].(blastPass := ps[i].blastPass && ps[i].name !in names)
  {
    seq(|ps|, i requires 0 <= i < |ps| => ps[i].(blastPass := ps[i].blastPass && ps[i].name !in names))
  }

  /** Clearing in two rounds is clearing the union once. */
  lemma ClearBlastTwice(ps: seq<Primer>, a: set<string>, b: set<string>)
    ensures ClearBlast(ClearBlast(ps, a), b) == ClearBlast(ps, a + b)
  {
    assert forall i :: 0 <= i < |ps| ==> ClearBlast(ps, a)[i].name == ps[i].name;
  }

  /** With unique names, clearing one more name changes exactly the primer at that name's index. */
  lemma ClearBlastAddOne(ps: seq<Primer>, names: set<string>, k: nat)
    requires UniqueNames(ps) && k < |ps|
    ensures var before := ClearBlast(ps, names);
            ClearBlast(ps, names + {ps[k].name}) == before[k := before[k].(blastPass := false)]
  {
  }

  /** Clearing one more name, found at index `k` of the partly cleared table. */
  lemma ClearBlastStep(ps: seq<Primer>, cur: seq<Primer>, names: set<string>, k: nat)
    requires UniqueNames(ps) && cur == ClearBlast(ps, names) && k < |cur|
    ensures cur[k := cur[k].(blastPass := false)] == ClearBlast(ps, names + {cur[k].name})
  {
    ClearBlastAddOne(ps, names, k);
  }

  /** Clearing keeps every name where it was, so a table with unique names keeps them unique. */
  lemma ClearBlastKeepsNames(ps: seq<Primer>, names: set<string>)
    ensures Names(ClearBlast(ps, names)) == Names(ps)
    ensures UniqueNames(ps) ==> UniqueNames(ClearBlast(ps, names))
  {
    var r := ClearBlast(ps, names);
    assert forall i :: 0 <= i < |ps| ==> Names(r)[i] == Names(ps)[i];
  }

  /** Tracing one more name to `g` adds it to `g`'s failures and to no other genome's. */
  lemma FailuresOfStep(gdlist: seq<GenomeData>, g: GenomeData, done: set<string>, n: string)
    requires Resolve(gdlist, OwnerGenome(n)) == Some(g)
    ensures FailuresOf(gdlist, g, done + {n}) == FailuresOf(gdlist, g, done) + {n}
    ensures forall h :: h != g ==> FailuresOf(gdlist, h, done + {n}) == FailuresOf(gdlist, h, done)
  {
  }

  /**
   * The loop of `parse_blast` over the failing names: each name is traced to
   * its genome by the part before `_primer_` and that genome's primer of
   * that name gets `blastPass` cleared. An unknown genome or primer raises
   * KeyError (`ok` false) and ends the run.
   */
  method MarkBlastFailures(gdlist: seq<GenomeData>, failing: set<string>) returns (ok: bool)
    requires forall g :: g in gdlist ==> g.Valid()
    modifies set g | g in gdlist
    ensures ok <==> forall n :: n in failing ==> old(Traceable(gdlist, n))
    ensures ok ==> forall g :: g in gdlist ==> g.primers == ClearBlast(old(g.primers), FailuresOf(gdlist, g, failing))
    ensures forall g :: g in gdlist ==> Names(g.primers) == Names(old(g.primers)) && g.Valid()
    ensures forall g :: g in gdlist ==> g.primersearchOutput == old(g.primersearchOutput)
  {
    var pending := failing;
    ghost var done: set<string> := {};
    forall g | g in gdlist
      ensures Cleared(gdlist, g, old(g.primers), done)
    {
      assert FailuresOf(gdlist, g, done) == {};
    }
    ok := true;
    while pending != {}
      invariant pending + done == failing && pending !! done
      invariant forall n :: n in done ==> old(Traceable(gdlist, n))
      invariant forall g :: g in gdlist ==> Cleared(gdlist, g, old(g.primers), done)
      invariant forall g :: g in gdlist ==> g.primersearchOutput == old(g.primersearchOutput)
      decreases pending
    {
      var n :| n in pending;
      var owner := Resolve(gdlist, OwnerGenome(n));
      if owner.None? {
        ok := false;
        break;
      }
      var g := owner.value;
      var found := IndexOf(g.primers, n);
      if found.None? {
        ok := false;
        break;
      }
      var k := found.value;
      assert Names(g.primers)[k] == n;
      ghost var mine := FailuresOf(gdlist, g, done);
      ClearBlastKeepsNames(old(g.primers), mine);
      ClearBlastStep(old(g.primers), g.primers, mine, k);
      FailuresOfStep(gdlist, g, done, n);
      g.primers := g.primers[k := g.primers[k].(blastPass := false)];
      pending := pending - {n};
      done := done + {n};
    }
    forall g | g in gdlist
      ensures Names(g.primers) == Names(old(g.primers)) && g.Valid()
    {
      ClearBlastKeepsNames(old(g.primers), FailuresOf(gdlist, g, done));
    }
  }

  /** `g`'s table is its table `before` with the failures among `done` cleared. */
  ghost predicate Cleared(gdlist: seq<GenomeData>, g: GenomeData, before: seq<Primer>, done: set<string>)
    reads g
  {
    UniqueNames(before) && g.primers == ClearBlast(before, FailuresOf(gdlist, g, done))
  }

  /**
   * `parse_blast`: the failing names of every genome's BLAST output, taken
   * in list order, cleared in the genomes they belong to.
   */
  method ParseBlast(gdlist: seq<GenomeData>, outputs: seq<seq<BlastRecord>>) returns (ok: bool)
    requires |outputs| == |gdlist|
    requires forall g :: g in gdlist ==> g.Valid()
    modifies set g | g in gdlist
    ensures var failing := set i, n | 0 <= i < |outputs| && n in BlastFailures(outputs[i]) :: n;
            (ok <==> forall n :: n in failing ==> old(Traceable(gdlist, n)))
            && (ok ==> forall g :: g in gdlist ==> g.primers == ClearBlast(old(g.primers), FailuresOf(gdlist, g, failing)))
    ensures forall g :: g in gdlist ==> Names(g.primers) == Names(old(g.primers)) && g.Valid()
    ensures forall g :: g in gdlist ==> g.primersearchOutput == old(g.primersearchOutput)
  {
    var failing: set<string> := {};
    var i := 0;
    while i < |outputs|
      invariant 0 <= i <= |outputs|
      invariant forall g :: g in gdlist ==> g.primers == old(g.primers) && g.primersearchOutput == old(g.primersearchOutput)
      invariant failing == set j, n | 0 <= j < i && n in BlastFailures(outputs[j]) :: n
    {
      var found := ProcessBlastXml(outputs[i]);
      failing := failing + found;
      i := i + 1;
    }
    ok := MarkBlastFailures(gdlist, failing);
  }
}
