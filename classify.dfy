/**
 * Cross-amplification: the all-against-all list of PrimerSearch result
 * files (`primersearch`) and the classification of every genome's primers
 * by those results (`classify_primers`), plus the log redirection appended
 * to external command lines (`log_output`).
 */
module Classify {
  import opened Wrappers
  import opened PyStr
  import opened Primers
  import opened Genome

  // ------------------------------------------------------------------
  // Result file names

  const VsMarker: string := "_vs_"
  const SearchExtension: string := ".primersearch"

  /** The file a query genome's primers are searched against a target in: `"%s_vs_%s.primersearch"` in `dir`. */
  function PairFile(dir: string, query: string, target: string): string {
    PathJoin(dir, query + VsMarker + target + SearchExtension)
  }

  /** The target genome named by a result file: the basename, extension removed, after its last `_vs_`. */
  function TargetName(filename: string): string {
    var parts := Split(SplitExt(Basename(filename)).0, VsMarker);
    parts[|parts| - 1]
  }

  /** `_vs_` occurs in `<q>_vs_<t>` only between the two names. */
  ghost predicate VsOnlyAtJoint(query: string, target: string) {
    forall j :: OccursAt(query + VsMarker + target, VsMarker, j) ==> j == |query|
  }

  /**
   * A '/'-free stem with some character other than '.' loses exactly the
   * `.primersearch` extension to `splitext`, whatever dots it holds itself.
   */
  lemma SplitExtOfPairStem(stem: string)
    requires '/' !in stem && exists k :: 0 <= k < |stem| && stem[k] != '.'
    ensures SplitExt(stem + SearchExtension) == (stem, SearchExtension)
  {
    var p := stem + SearchExtension;
    RFindAppendAbsent(stem, SearchExtension, '/');
    assert RFind(stem, '/') == -1 by { OccursSingle(stem, '/'); }
    assert RFind(p, '.') == |stem| by {
      assert p[|stem|] == '.';
      assert forall j :: |stem| < j < |p| ==> p[j] == SearchExtension[j - |stem|];
    }
    var k :| 0 <= k < |stem| && stem[k] != '.';
    assert p[k] != '.';
    assert p[..|stem|] == stem && p[|stem|..] == SearchExtension;
  }

  /**
   * The target recovered from a pair file is the target genome's name, as
   * long as `_vs_` occurs in `<q>_vs_<t>` only between the two names and
   * neither name holds '/'.
   */
  lemma TargetOfPairFile(dir: string, query: string, target: string)
    requires '/' !in query && '/' !in target
    requires VsOnlyAtJoint(query, target)
    ensures TargetName(PairFile(dir, query, target)) == target
  {
    var stem := query + VsMarker + target;
    assert '/' !in stem by {
      assert forall j :: 0 <= j < |stem| ==> stem[j] in query || stem[j] in VsMarker || stem[j] in target;
    }
    assert stem[|query|] == '_';
    assert '/' !in stem + SearchExtension by {
      assert forall j :: 0 <= j < |stem| + |SearchExtension| ==> (stem + SearchExtension)[j] in stem || (stem + SearchExtension)[j] in SearchExtension;
    }
    BasenameOfJoin(dir, stem + SearchExtension);
    SplitExtOfPairStem(stem);
    SplitAtOnlyOccurrence(query, VsMarker, target);
  }

  /** Genome names without '_' always meet the `_vs_` condition of `TargetOfPairFile`. */
  lemma UnderscoreFreeNamesPair(query: string, target: string)
    requires '_' !in query && '_' !in target
    ensures VsOnlyAtJoint(query, target)
  {
    var s := query + VsMarker + target;
    assert forall k :: 0 <= k < |query| ==> s[k] == query[k];
    assert forall k :: |query| + 4 <= k < |s| ==> s[k] == target[k - |query| - 4];
    assert forall k :: |query| <= k < |query| + 4 ==> s[k] == VsMarker[k - |query|];
    forall j | OccursAt(s, VsMarker, j)
      ensures j == |query|
    {
      assert s[j] == s[j..j + 4][0] == '_';
      assert s[j + 3] == s[j..j + 4][3] == '_';
    }
  }

  /** The result files of one query genome, one per other genome object of the list, in list order. */
  function PairFiles(gdlist: seq<GenomeData>, q: GenomeData): (r: seq<string>)
    requires q.seqFilename.Some?
    ensures |r| == |gdlist| - Occurrences(gdlist, q)
  {
    if gdlist == [] then []
    else
      var rest := PairFiles(gdlist[1..], q);
      if gdlist[0] != q then [PairFile(Dirname(q.seqFilename.value), q.name, gdlist[0].name)] + rest else rest
  }

  /** How often the object `q` appears in the list. */
  function Occurrences(gdlist: seq<GenomeData>, q: GenomeData): (n: nat)
    ensures n <= |gdlist|
    ensures q !in gdlist ==> n == 0
  {
    if gdlist == [] then 0 else (if gdlist[0] == q then 1 else 0) + Occurrences(gdlist[1..], q)
  }

  /** Each object appears once in a list without repeated objects. */
  lemma {:induction false} OccursOnce(gdlist: seq<GenomeData>, q: GenomeData)
    requires forall i, j :: 0 <= i < j < |gdlist| ==> gdlist[i] != gdlist[j]
    requires q in gdlist
    ensures Occurrences(gdlist, q) == 1
  {
    if gdlist[0] != q {
      OccursOnce(gdlist[1..], q);
    } else {
      assert q !in gdlist[1..];
    }
  }

  /** A query can be listed unless it needs a directory (some other genome object) and has no sequence file. */
  predicate CanListPairs(gdlist: seq<GenomeData>, q: GenomeData) {
    q.seqFilename.Some? || forall t :: t in gdlist ==> t == q
  }

  /**
   * The result-file lists built by `primersearch`: for each query genome,
   * a file for every other genome object, named `<query>_vs_<target>` and
   * placed beside the query's sequence file. A query without a sequence
   * file raises AttributeError once a file has to be placed.
   */
  method PrimerSearchOutputs(gdlist: seq<GenomeData>) returns (ok: bool)
    modifies set g | g in gdlist
    ensures ok <==> forall q :: q in gdlist ==> CanListPairs(gdlist, q)
    ensures ok ==> forall q :: q in gdlist ==> q.primersearchOutput == Some(ListedPairs(gdlist, q))
    ensures forall g :: g in gdlist ==> g.primers == old(g.primers)
  {
    var k := 0;
    while k < |gdlist|
      invariant 0 <= k <= |gdlist|
      invariant forall g :: g in gdlist[..k] ==> CanListPairs(gdlist, g) && g.primersearchOutput == Some(ListedPairs(gdlist, g))
      invariant forall g :: g in gdlist ==> g.primers == old(g.primers)
    {
      var q := gdlist[k];
      var listed := ListPairFiles(gdlist, q);
      if !listed {
        return false;
      }
      assert forall g :: g in gdlist[..k + 1] ==> g in gdlist[..k] || g == q;
      k := k + 1;
    }
    assert gdlist[..k] == gdlist;
    ok := true;
  }

  /** The inner loop of `primersearch` for one query genome: its pair files, one per other genome object. */
  method ListPairFiles(gdlist: seq<GenomeData>, q: GenomeData) returns (ok: bool)
    modifies q
    ensures ok <==> CanListPairs(gdlist, q)
    ensures ok ==> q.primersearchOutput == Some(ListedPairs(gdlist, q))
    ensures q.primers == old(q.primers)
  {
    q.primersearchOutput := Some([]);
    var j := 0;
    while j < |gdlist|
      invariant 0 <= j <= |gdlist|
      invariant forall t :: t in gdlist[..j] ==> t == q || q.seqFilename.Some?
      invariant q.primersearchOutput == Some(if q.seqFilename.Some? then PairFilesUpTo(gdlist, q, j) else [])
      invariant q.primers == old(q.primers)
    {
      var t := gdlist[j];
      assert gdlist[..j + 1] == gdlist[..j] + [t];
      if q != t {
        if q.seqFilename.None? {
          assert t in gdlist;
          return false;
        }
        PairFilesUpToStep(gdlist, q, j);
        q.primersearchOutput := Some(q.primersearchOutput.value + [PairFile(Dirname(q.seqFilename.value), q.name, t.name)]);
      } else if q.seqFilename.Some? {
        PairFilesUpToStep(gdlist, q, j);
        assert PairFilesUpTo(gdlist, q, j) + [] == PairFilesUpTo(gdlist, q, j);
      }
      j := j + 1;
    }
    assert gdlist[..j] == gdlist;
    if q.seqFilename.Some? {
      PairFilesUpToAll(gdlist, q);
    }
    ok := true;
  }

  /** What `primersearch` lists for a query: its pair files, or nothing when it has no other genome to pair with. */
  function ListedPairs(gdlist: seq<GenomeData>, q: GenomeData): seq<string> {
    if q.seqFilename.Some? then PairFiles(gdlist, q) else []
  }

  /** The files of `PairFiles` for the targets among the first `j` objects. */
  function PairFilesUpTo(gdlist: seq<GenomeData>, q: GenomeData, j: nat): seq<string>
    requires q.seqFilename.Some? && j <= |gdlist|
  {
    if j == 0 then []
    else
      PairFilesUpTo(gdlist, q, j - 1)
      + (if gdlist[j - 1] != q then [PairFile(Dirname(q.seqFilename.value), q.name, gdlist[j - 1].name)] else [])
  }

  lemma PairFilesUpToStep(gdlist: seq<GenomeData>, q: GenomeData, j: nat)
    requires q.seqFilename.Some? && j < |gdlist|
    ensures PairFilesUpTo(gdlist, q, j + 1)
         == PairFilesUpTo(gdlist, q, j)
            + (if gdlist[j] != q then [PairFile(Dirname(q.seqFilename.value), q.name, gdlist[j].name)] else [])
  {
  }

  /** Building the list target by target, front to back, gives `PairFiles`. */
  lemma {:induction false} PairFilesUpToAll(gdlist: seq<GenomeData>, q: GenomeData)
    requires q.seqFilename.Some?
    ensures PairFilesUpTo(gdlist, q, |gdlist|) == PairFiles(gdlist, q)
  {
    if gdlist != [] {
      PairFilesUpToAll(gdlist[1..], q);
      PairFilesUpToShift(gdlist, q, |gdlist|);
    }
  }

  lemma {:induction false} PairFilesUpToShift(gdlist: seq<GenomeData>, q: GenomeData, j: nat)
    requires q.seqFilename.Some? && 1 <= j <= |gdlist|
    ensures PairFilesUpTo(gdlist, q, j)
         == (if gdlist[0] != q then [PairFile(Dirname(q.seqFilename.value), q.name, gdlist[0].name)] else [])
            + PairFilesUpTo(gdlist[1..], q, j - 1)
  {
    if j > 1 {
      PairFilesUpToShift(gdlist, q, j - 1);
    }
  }

  /** With distinct genome objects every genome gets one result file per other genome, n·(n-1) in all. */
  lemma PairFileCount(gdlist: seq<GenomeData>, q: GenomeData)
    requires forall i, j :: 0 <= i < j < |gdlist| ==> gdlist[i] != gdlist[j]
    requires q in gdlist && q.seqFilename.Some?
    ensures |PairFiles(gdlist, q)| == |gdlist| - 1
  {
    OccursOnce(gdlist, q);
  }

  /** Every file listed for a query names, as its target, the target genome listed at that place. */
  lemma {:induction false} PairFilesTargets(gdlist: seq<GenomeData>, q: GenomeData)
    requires q.seqFilename.Some? && '/' !in q.name
    requires forall g :: g in gdlist ==> '/' !in g.name
    requires forall g :: g in gdlist && g != q ==> VsOnlyAtJoint(q.name, g.name)
    ensures forall f :: f in PairFiles(gdlist, q) ==> exists t :: t in gdlist && t != q && TargetName(f) == t.name
  {
    if gdlist != [] {
      PairFilesTargets(gdlist[1..], q);
      var t := gdlist[0];
      if t != q {
        TargetOfPairFile(Dirname(q.seqFilename.value), q.name, t.name);
      }
      forall f | f in PairFiles(gdlist, q)
        ensures exists t :: t in gdlist && t != q && TargetName(f) == t.name
      {
        if f !in PairFiles(gdlist[1..], q) {
          assert TargetName(f) == t.name;
        } else {
          var u :| u in gdlist[1..] && u != q && TargetName(f) == u.name;
          assert u in gdlist;
        }
      }
    }
  }

  // ------------------------------------------------------------------
  // Applying one PrimerSearch result file

  /**
   * A target's result: every primer the file reports with at least one
   * amplimer gains the target genome and the target's families. A reported
   * primer the genome lacks raises KeyError; a target without families
   * raises TypeError as soon as a primer amplifies.
   */
  function AddAmplification(ps: seq<Primer>, target: string, families: Option<seq<string>>, amps: map<string, nat>)
    : (r: Result<seq<Primer>, PyError>)
    ensures r.Err? <==> exists n :: n in amps && amps[n] > 0 && (n !in Names(ps) || families.None?)
    ensures r.Ok? ==> |r.value| == |ps| && Names(r.value) == Names(ps)
    ensures r.Ok? ==> forall i :: 0 <= i < |ps| ==>
              if ps[i].name in amps && amps[ps[i].name] > 0
              then r.value[i] == ps[i].(amplifiesOrganism := ps[i].amplifiesOrganism + {target},
                                        amplifiesFamily := ps[i].amplifiesFamily + set f | f in families.value)
              else r.value[i] == ps[i]
  {
    if exists n :: n in amps && amps[n] > 0 && n !in Names(ps) then Err(KeyError)
    else if families.None? && exists n :: n in amps && amps[n] > 0 then Err(TypeError)
    else
      var fams := if families.Some? then set f | f in families.value else {};
      var r := seq(|ps|, i requires 0 <= i < |ps| =>
                   if ps[i].name in amps && amps[ps[i].name] > 0
                   then ps[i].(amplifiesOrganism := ps[i].amplifiesOrganism + {target},
                               amplifiesFamily := ps[i].amplifiesFamily + fams)
                   else ps[i]);
      assert forall i :: 0 <= i < |ps| ==> r[i].name == ps[i].name;
      SameNames(r, ps);
      Ok(r)
  }

  /** A negative-control result: every primer the file reports records its number of amplimers. */
  function SetNegativeControl(ps: seq<Primer>, amps: map<string, nat>): (r: Result<seq<Primer>, PyError>)
    ensures r.Err? <==> exists n :: n in amps && n !in Names(ps)
    ensures r.Ok? ==> |r.value| == |ps| && Names(r.value) == Names(ps)
    ensures r.Ok? ==> forall i :: 0 <= i < |ps| ==>
              r.value[i] == if ps[i].name in amps then ps[i].(negativeControlAmplimers := Some(amps[ps[i].name])) else ps[i]
  {
    if exists n :: n in amps && n !in Names(ps) then Err(KeyError)
    else
      var r := seq(|ps|, i requires 0 <= i < |ps| =>
                   if ps[i].name in amps then ps[i].(negativeControlAmplimers := Some(amps[ps[i].name])) else ps[i]);
      assert forall i :: 0 <= i < |ps| ==> r[i].name == ps[i].name;
      SameNames(r, ps);
      Ok(r)
  }

  /**
   * One iteration of the file loop of `classify_primers` for a genome whose
   * primers are `ps`: a file whose target is a genome of the list adds
   * amplifications; otherwise a file whose path mentions `negative_control`
   * records negative-control counts; any other file is ignored. `results`
   * maps each readable file to its amplimer counts by primer name; reading
   * a file that is not there raises IOError.
   */
  function ClassifyFile(gdlist: seq<GenomeData>, ps: seq<Primer>, filename: string, results: map<string, map<string, nat>>)
    : (r: Result<seq<Primer>, PyError>)
    ensures r.Ok? ==> Names(r.value) == Names(ps)
  {
    var target := TargetName(filename);
    match Resolve(gdlist, target)
    case Some(g) =>
      if filename !in results then Err(IOError) else AddAmplification(ps, target, g.families, results[filename])
    case None =>
      if !Contains(filename, "negative_control") then Ok(ps)
      else if filename !in results then Err(IOError)
      else SetNegativeControl(ps, results[filename])
  }

  /** Reading the same result file a second time changes nothing. */
  lemma ClassifyFileIdempotent(gdlist: seq<GenomeData>, ps: seq<Primer>, filename: string, results: map<string, map<string, nat>>)
    requires ClassifyFile(gdlist, ps, filename, results).Ok?
    ensures var once := ClassifyFile(gdlist, ps, filename, results).value;
            ClassifyFile(gdlist, once, filename, results) == Ok(once)
  {
    var target := TargetName(filename);
    match Resolve(gdlist, target)
    case Some(g) =>
      AddAmplificationTwice(ps, target, g.families, results[filename]);
    case None =>
      if Contains(filename, "negative_control") {
        SetNegativeControlTwice(ps, results[filename]);
      }
  }

  lemma AddAmplificationTwice(ps: seq<Primer>, target: string, families: Option<seq<string>>, amps: map<string, nat>)
    requires AddAmplification(ps, target, families, amps).Ok?
    ensures var once := AddAmplification(ps, target, families, amps).value;
            AddAmplification(once, target, families, amps) == Ok(once)
  {
    var once := AddAmplification(ps, target, families, amps).value;
    var again := AddAmplification(once, target, families, amps);
    assert again.Ok?;
    assert again.value == once;
  }

  lemma SetNegativeControlTwice(ps: seq<Primer>, amps: map<string, nat>)
    requires SetNegativeControl(ps, amps).Ok?
    ensures var once := SetNegativeControl(ps, amps).value;
            SetNegativeControl(once, amps) == Ok(once)
  {
    var once := SetNegativeControl(ps, amps).value;
    var again := SetNegativeControl(once, amps);
    assert again.value == once;
  }

  /** A file whose target is not in the list never changes which genomes or families a primer amplifies. */
  lemma UnknownTargetKeepsAmplification(gdlist: seq<GenomeData>, ps: seq<Primer>, filename: string,
                                        results: map<string, map<string, nat>>)
    requires Resolve(gdlist, TargetName(filename)).None?
    requires ClassifyFile(gdlist, ps, filename, results).Ok?
    ensures var r := ClassifyFile(gdlist, ps, filename, results).value;
            |r| == |ps|
            && forall i :: 0 <= i < |ps| ==> (r[i].amplifiesOrganism == ps[i].amplifiesOrganism
                                             && r[i].amplifiesFamily == ps[i].amplifiesFamily)
    ensures !Contains(filename, "negative_control") ==> ClassifyFile(gdlist, ps, filename, results) == Ok(ps)
  {
  }

  /**
   * The file loop of `classify_primers` for one genome: the files applied
   * in order, stopping at the first exception.
   */
  function ClassifyFiles(gdlist: seq<GenomeData>, ps: seq<Primer>, files: seq<string>, results: map<string, map<string, nat>>)
    : (r: Result<seq<Primer>, PyError>)
    ensures r.Ok? ==> Names(r.value) == Names(ps)
  {
    if files == [] then Ok(ps)
    else
      match ClassifyFiles(gdlist, ps, files[..|files| - 1], results)
      case Err(e) => Err(e)
      case Ok(q) => ClassifyFile(gdlist, q, files[|files| - 1], results)
  }

  /** The loop of `classify_primers` over one genome's result files. */
  method ClassifyGenome(gdlist: seq<GenomeData>, gd: GenomeData, results: map<string, map<string, nat>>) returns (ok: bool)
    requires gd.Valid()
    modifies gd
    ensures ok <==> gd.primersearchOutput.Some? && ClassifyFiles(gdlist, old(gd.primers), gd.primersearchOutput.value, results).Ok?
    ensures ok ==> Classified(gdlist, gd, old(gd.primers), results)
    ensures gd.primersearchOutput == old(gd.primersearchOutput)
    ensures KeptKeys(gd, old(gd.primers))
  {
    if gd.primersearchOutput.None? {
      return false;
    }
    var files := gd.primersearchOutput.value;
    var j := 0;
    while j < |files|
      invariant 0 <= j <= |files|
      invariant gd.primersearchOutput == old(gd.primersearchOutput)
      invariant Applied(gdlist, old(gd.primers), files, j, gd.primers, results)
    {
      var step := ClassifyFile(gdlist, gd.primers, files[j], results);
      ClassifyFilesStep(gdlist, old(gd.primers), files, results, j, gd.primers);
      if step.Err? {
        ClassifyFilesStopsAtError(gdlist, old(gd.primers), files, results, j + 1);
        return false;
      }
      gd.primers := step.value;
      j := j + 1;
    }
    AppliedAll(gdlist, old(gd.primers), files, gd.primers, results);
    ok := true;
  }

  /**
   * The first `j` files applied in order to `ps` give `cur`, which has the
   * same names and, when the names of `ps` are unique, unique names.
   */
  ghost predicate Applied(gdlist: seq<GenomeData>, ps: seq<Primer>, files: seq<string>, j: nat, cur: seq<Primer>,
                          results: map<string, map<string, nat>>)
  {
    && j <= |files| && ClassifyFiles(gdlist, ps, files[..j], results) == Ok(cur)
    && Names(cur) == Names(ps) && (UniqueNames(ps) ==> UniqueNames(cur))
  }

  /** All files applied. */
  lemma AppliedAll(gdlist: seq<GenomeData>, ps: seq<Primer>, files: seq<string>, cur: seq<Primer>,
                   results: map<string, map<string, nat>>)
    requires Applied(gdlist, ps, files, |files|, cur, results)
    ensures ClassifyFiles(gdlist, ps, files, results) == Ok(cur)
    ensures Names(cur) == Names(ps) && (UniqueNames(ps) ==> UniqueNames(cur))
  {
    assert files[..|files|] == files;
  }

  /** One more file applied to the primers obtained so far. */
  lemma ClassifyFilesStep(gdlist: seq<GenomeData>, ps: seq<Primer>, files: seq<string>,
                          results: map<string, map<string, nat>>, j: nat, cur: seq<Primer>)
    requires j < |files| && Applied(gdlist, ps, files, j, cur, results)
    ensures var step := ClassifyFile(gdlist, cur, files[j], results);
            && (step.Ok? ==> Applied(gdlist, ps, files, j + 1, step.value, results))
            && (step.Err? ==> ClassifyFiles(gdlist, ps, files[..j + 1], results).Err?)
  {
    assert files[..j + 1][..j] == files[..j];
    var step := ClassifyFile(gdlist, cur, files[j], results);
    if step.Ok? && UniqueNames(ps) {
      UniqueBySameNames(cur, step.value);
    }
  }

  /** Once the files up to some point raise, all files raise. */
  lemma {:induction false} ClassifyFilesStopsAtError(gdlist: seq<GenomeData>, ps: seq<Primer>, files: seq<string>,
                                                     results: map<string, map<string, nat>>, j: nat)
    requires j <= |files| && ClassifyFiles(gdlist, ps, files[..j], results).Err?
    ensures ClassifyFiles(gdlist, ps, files, results).Err?
    decreases |files| - j
  {
    if j < |files| {
      assert files[..j + 1][..j] == files[..j];
      ClassifyFilesStopsAtError(gdlist, ps, files, results, j + 1);
    } else {
      assert files[..j] == files;
    }
  }

  /**
   * `classify_primers`: every genome's result files applied to its
   * primers, genome by genome in list order. A genome never given a list
   * of result files raises AttributeError.
   */
  method ClassifyPrimers(gdlist: seq<GenomeData>, results: map<string, map<string, nat>>) returns (ok: bool)
    requires forall i, j :: 0 <= i < j < |gdlist| ==> gdlist[i] != gdlist[j]
    requires forall g :: g in gdlist ==> g.Valid()
    modifies set g | g in gdlist
    ensures ok <==> forall i :: 0 <= i < |gdlist| ==>
              gdlist[i].primersearchOutput.Some?
              && ClassifyFiles(gdlist, old(gdlist[i].primers), gdlist[i].primersearchOutput.value, results).Ok?
    ensures ok ==> forall i :: 0 <= i < |gdlist| ==>
              gdlist[i].primers == ClassifyFiles(gdlist, old(gdlist[i].primers), gdlist[i].primersearchOutput.value, results).value
    ensures forall g :: g in gdlist ==> g.primersearchOutput == old(g.primersearchOutput)
    ensures forall g :: g in gdlist ==> Names(g.primers) == Names(old(g.primers)) && g.Valid()
  {
    var k := 0;
    while k < |gdlist|
      invariant 0 <= k <= |gdlist|
      invariant forall i :: 0 <= i < k ==> Classified(gdlist, gdlist[i], old(gdlist[i].primers), results)
      invariant forall i :: k <= i < |gdlist| ==> gdlist[i].primers == old(gdlist[i].primers)
      invariant forall g :: g in gdlist ==> g.primersearchOutput == old(g.primersearchOutput)
      invariant forall g :: g in gdlist ==> KeptKeys(g, old(g.primers))
    {
      var gd := gdlist[k];
      assert forall i :: 0 <= i < |gdlist| && i != k ==> gdlist[i] != gd;
      var done := ClassifyGenome(gdlist, gd, results);
      if !done {
        return false;
      }
      k := k + 1;
    }
    ok := true;
  }

  /** `g` has the primer names it had as `before`, and they are unique. */
  ghost predicate KeptKeys(g: GenomeData, before: seq<Primer>)
    reads g
  {
    Names(g.primers) == Names(before) && g.Valid()
  }

  /** The result files of `g` were all applied, in order, to its primers `before`, giving its current primers. */
  ghost predicate Classified(gdlist: seq<GenomeData>, g: GenomeData, before: seq<Primer>, results: map<string, map<string, nat>>)
    reads g
  {
    g.primersearchOutput.Some? && ClassifyFiles(gdlist, before, g.primersearchOutput.value, results) == Ok(g.primers)
  }

  // ------------------------------------------------------------------
  // Log redirection of external commands

  /**
   * `log_output(filename)`: with logs kept, `" 2> "` and the log path
   * (inside the log directory when one is given, a non-empty string) with
   * `.log` appended; otherwise nothing.
   */
  function LogOutput(filename: string, keepLogs: bool, logDir: string): (r: string)
    ensures r == "" <==> !keepLogs
    ensures keepLogs ==> StartsWith(r, " 2> ") && EndsWith(r, ".log")
    ensures keepLogs ==> |r| >= 8 && r[4..|r| - 4] == if logDir != "" then PathJoin(logDir, filename) else filename
  {
    if keepLogs && logDir != "" then " 2> " + PathJoin(logDir, filename) + ".log"
    else if keepLogs then " 2> " + filename + ".log"
    else ""
  }
}
