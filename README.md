# find_differential_primers — a Dafny model of primer classification

`find_differential_primers.py` designs PCR primers for each genome of a collection. Every primer is then checked against every other genome. The output is the primers that are specific to one genome, the primers specific to a family of genomes, and the primers that amplify all of them.

This project models the core of that pipeline:

- the per-primer flags set after loading;
- the filter chain (CDS overlap, 3′ GC, internal oligo, BLAST screen, single product);
- the cross-amplification bookkeeping of `classify_primers`;
- the three classifier queries on `GenomeData`;
- the data that `write_report` assembles;
- the configuration-file format shared by `create_gd_from_config` and `sample/build_config_file.py`.

Modules, one per file:

| module | file | what it holds |
|---|---|---|
| `Wrappers` | wrappers.dfy | `Option`, `Result` and `PyError`, the exception a Python statement would raise |
| `PyStr` | pystr.dfy | the Python string and path builtins the core relies on: `split`, `join`, `count`, `strip`, `os.path.basename`/`splitext`/`join`, `%04d`, `str(int)` |
| `Primers` | primers.dfy | the primer record with its ad hoc attributes, primer naming, the 3′ GC and oligo tests for one primer, BLAST query ids |
| `Classifier` | classifier.dfy | the classifier queries as a base criterion followed by the ordered flag filters |
| `Genome` | genome.dfy | the `GenomeData` class, whose primer table its methods update in place (`load_primers`, the CDS clean-up step, the two flag filters) |
| `Blast` | blast.dfy | the hit decision of `process_blastxml` and the flag clearing of `parse_blast` |
| `Classify` | classify.dfy | the PrimerSearch file list of `primersearch`, `classify_primers` and `log_output` |
| `Report` | report.dfy | the family dictionary, the per-genome queries and the accumulation loop of `write_report` |
| `Config` | config.dfy | the config-file reader of `create_gd_from_config` |
| `BuildConfig` | buildconfig.dfy | `get_input_files` and `write_config_file`, and their round trip through the reader |

Modelling choices:

- **Python 2.** The scripts are Python 2 programs (`print` statements, `open(..., 'rU')`), and the model follows Python 2 semantics: `str.strip()` removes ASCII whitespace only, and `os.path.split(None)` raises AttributeError.
- **Primers are values.** A primer is a `datatype` value held in the genome's `primers: seq<Primer>`. `GenomeData.Valid()` says its names are unique. A Python 2 dictionary iterates in an order fixed by hashing, not by insertion; the model fixes one order for the primer dictionary, the order in which `load_primers` adds the keys. Nothing outside its genome changes a primer, so value semantics give the same observable result.
- **Global options become parameters.** The global `options` becomes a `QueryFlags` record `{cds, gc3Prime, oligo, blast, singleProduct}`.
- **Exceptions become results.** An exception the Python code would raise is an `Err` result: `KeyError`, `IndexError`, an `AttributeError` on a never-assigned `negative_control_amplimers`, a `ValueError` on unpacking, and so on. A method that changes state and can raise returns `ok: bool`.
- **Source quirks are kept.** These are modelled as written:
  - the reverse-primer GC test adds the forward primer's G count;
  - `count('CC')` counts non-overlapping occurrences;
  - `write_report` passes `blastfilter` into the `oligovalid` slot;
  - the universal primer file is written from the last genome's list.
- **Universal primers with one genome.** `write_report` asks for primers amplifying `len(gdlist) - 1` other genomes. With one genome that count is 0, so `universal_primers` is that genome's unique primers (`Report.OneGenomeUniversalIsUnique`).

## Model

Paths are relative to the repository root.

| member | source | states |
|---|---|---|
| PyStr.Strip | find_differential_primers/find_differential_primers.py:556-559 | `str.strip()`: the result is the part of `s` that starts after its leading whitespace run and is followed by whitespace only, and it has no whitespace at either end; an already stripped string is unchanged |
| PyStr.LeadingSpace | find_differential_primers/find_differential_primers.py:556 | the length of the whitespace run that starts a string: all whitespace, and followed by a non-whitespace character or the end |
| PyStr.TrailingSpace | find_differential_primers/find_differential_primers.py:556 | the length of the whitespace run that ends a string: all whitespace, and preceded by a non-whitespace character or the start |
| PyStr.StripLeft | find_differential_primers/find_differential_primers.py:556 | leading whitespace only is removed: the result is a suffix, everything dropped is whitespace, and the result does not start with whitespace |
| PyStr.StripRight | find_differential_primers/find_differential_primers.py:556 | trailing whitespace only is removed: the result is a prefix, everything dropped is whitespace, and the result does not end with whitespace |
| PyStr.JoinSplit | find_differential_primers/find_differential_primers.py:559 | joining the pieces of `s.split(sep)` with `sep` gives `s` back |
| PyStr.SplitJoin | sample/build_config_file.py:139 | splitting a join on a separator character that no part contains gives the parts back |
| PyStr.SplitAtOnlyOccurrence | find_differential_primers/find_differential_primers.py:1237-1239 | `(a + sep + b).split(sep)` is `[a, b]` when that is the only occurrence of `sep` |
| PyStr.DropLastPieceOfAppend | find_differential_primers/find_differential_primers.py:1043-1044 | `'_'.join(q.split('_')[:-1])` removes exactly a final `_`-free suffix |
| PyStr.CountAboveOneIffTwoDisjoint | find_differential_primers/find_differential_primers.py:900 | `s.count(sub) > 1` iff `sub` occurs at two positions that do not overlap |
| PyStr.LastChars | find_differential_primers/find_differential_primers.py:875 | `s[-n:]` is a suffix of length `min(len(s), n)` |
| PyStr.Interior | find_differential_primers/find_differential_primers.py:900 | `s[1:-1]` is what lies between the first and last characters, and is empty for shorter strings |
| PyStr.Basename | find_differential_primers/find_differential_primers.py:1238 | `os.path.split(p)[-1]` is the `/`-free suffix of the path that is the whole path or follows a `/`, i.e. everything after the last `/` |
| PyStr.SplitExt | sample/build_config_file.py:107 | `os.path.splitext`: the two parts concatenate to the path; the extension is empty or a `.` followed by no `/` or `.`, so it starts at the last `.`; it is non-empty iff the last path component holds a `.` with some character other than `.` before it |
| PyStr.BasenameOfJoin | sample/build_config_file.py:108 | the basename of `os.path.join(dir, name)` is `name` when `name` has no `/` |
| PyStr.Format04 | find_differential_primers/find_differential_primers.py:784 | `%04d` gives at least four digits |
| PyStr.Format04RoundTrip | find_differential_primers/find_differential_primers.py:784 | the `%04d` field reads back as its counter |
| PyStr.Format04Injective | find_differential_primers/find_differential_primers.py:784 | different counters give different fields |
| PyStr.ParseDecimalOfDecimal | find_differential_primers/find_differential_primers.py:1354-1355 | `str(n)` reads back as `n` |
| Primers.NewPrimer | find_differential_primers/find_differential_primers.py:782-790 | a loaded primer is named `<genome>_primer_%04d` and starts with no CDS overlap, all three validity flags set, empty amplification sets and no negative-control count |
| Primers.PrimerName | find_differential_primers/find_differential_primers.py:784 | `"%s_primer_%04d" % (gd.name, primercount)`; `Primers.PrimerNamesDiffer` and `Primers.OwnerOfPrimerName` state that it is injective in the counter and gives the genome back |
| Primers.PrimerNamesDiffer | find_differential_primers/find_differential_primers.py:784 | two counters of one genome give different primer names |
| Primers.Gc3PrimeChecked | find_differential_primers/find_differential_primers.py:874-879 | the GC test clears `gc3primevalid` exactly when the test fails, never sets it, and changes no other field |
| Primers.Gc3PrimeFails | find_differential_primers/find_differential_primers.py:875-877 | the 3′ GC condition as written, including the forward primer's G count in the reverse test; its meaning is stated by `Primers.Gc3PrimeIgnoresReverseG` and `Primers.Gc3PrimeQuirkExample` |
| Primers.Gc3PrimeIgnoresReverseG | find_differential_primers/find_differential_primers.py:877 | the reverse primer's G count never matters, because the reverse test adds the forward primer's G count |
| Primers.Gc3PrimeQuirkExample | find_differential_primers/find_differential_primers.py:876-877 | a reverse primer ending `GGGGG` passes against a forward primer ending `AAAAA` |
| Primers.OligoFails | find_differential_primers/find_differential_primers.py:898-901 | the oligo test raises IndexError exactly when the oligo is shorter than 2 and neither starts nor ends with G |
| Primers.OligoFailsMeans | find_differential_primers/find_differential_primers.py:898-901 | for oligos of length at least 2, the test fails iff the oligo starts with G, ends with G, has G second, or has two non-overlapping `CC` inside `seq[1:-1]` |
| Primers.OligoChecked | find_differential_primers/find_differential_primers.py:897-903 | a design without an internal oligo raises AttributeError on `primer.oligo`; a short oligo raises IndexError as `OligoFails` says; otherwise the test only ever clears `oligovalid` and changes nothing else |
| Primers.QueryIdsRoundTrip | find_differential_primers/find_differential_primers.py:941-944 | dropping the last `_` piece of either BLAST query id of a primer gives back the primer's name |
| Primers.BlastQueryIds | find_differential_primers/find_differential_primers.py:941-944 | the ids `name + '_forward'` and `name + '_reverse'` written for a primer's BLAST queries; `Primers.QueryIdsRoundTrip` states that both lead back to the name |
| Primers.QueryIdName | find_differential_primers/find_differential_primers.py:1043-1044 | dropping the last `_` piece of `name + tail` gives `name` when `tail` is one `_` piece |
| Primers.OwnerOfPrimerName | find_differential_primers/find_differential_primers.py:1007 | `name.split('_primer_')[0]` of a primer name is its genome, when the genome name cannot produce the marker itself |
| Primers.OwnerGenome | find_differential_primers/find_differential_primers.py:1007 | `name.split('_primer_')[0]`; `Primers.OwnerOfPrimerName` states that it gives back the genome of a primer name |
| Primers.UnderscoreFreeGenomeNames | find_differential_primers/find_differential_primers.py:1007 | a genome name without `_` cannot produce the `_primer_` marker |
| Primers.Names | find_differential_primers/find_differential_primers.py:195 | the dictionary keys, position by position |
| Primers.SameNames | find_differential_primers/find_differential_primers.py:195 | two tables with the same name at each position have the same keys |
| Primers.UniqueBySameNames | find_differential_primers/find_differential_primers.py:195 | a table with the same keys as one with unique keys has unique keys |
| Primers.IndexOf | find_differential_primers/find_differential_primers.py:1008 | `gd.primers[name]`: the position of the primer with that name, or None exactly when the key is missing |
| Classifier.Select | find_differential_primers/find_differential_primers.py:305-306 | a list comprehension keeps exactly the elements satisfying its condition |
| Classifier.SelectShrinks | find_differential_primers/find_differential_primers.py:305-306 | a list comprehension's result is a subsequence of its input |
| Classifier.SelectAppend | find_differential_primers/find_differential_primers.py:305-306 | a comprehension over a concatenation is the concatenation of the comprehensions |
| Classifier.SelectSingleProduct | find_differential_primers/find_differential_primers.py:325-327 | the single-product filter raises AttributeError iff some remaining primer has no negative-control count, and otherwise keeps the primers with exactly one amplimer |
| Classifier.ApplyFilters | find_differential_primers/find_differential_primers.py:309-329 | the optional filter chain in source order, ending with single product; `Classifier.QueryMeaning` ties it to the one-pass `Qualifying` definition |
| Classifier.FlagFiltersShrink | find_differential_primers/find_differential_primers.py:309-324 | each filter in the CDS, GC, oligo, BLAST chain only removes primers, so the result is a subsequence of the input |
| Classifier.QueryMeaning | find_differential_primers/find_differential_primers.py:305-332 | a query (base criterion, then the ordered filters) raises iff single-product filtering meets a primer that passes the earlier filters but has no negative-control count; otherwise it returns exactly the primers, in order, that meet the criterion and pass every enabled filter |
| Classifier.FlagFiltersOfSelect | find_differential_primers/find_differential_primers.py:305-324 | the four flag filters applied after the base criterion keep the primers meeting the criterion and passing the enabled flags |
| Classifier.SingleProductOfQualifying | find_differential_primers/find_differential_primers.py:325-327 | single-product filtering of the flag-filtered list is the list of primers passing all enabled filters |
| Classifier.SingleProductRaises | find_differential_primers/find_differential_primers.py:325-327 | the single-product step raises iff a flag-passing primer meeting the criterion has no negative-control count |
| Classifier.QualifyingSubsequence | find_differential_primers/find_differential_primers.py:305-332 | the primers passing all filters are a subsequence of the table |
| Classifier.PrimersAmplifyCount | find_differential_primers/find_differential_primers.py:297-332 | `get_primers_amplify_count`: raises AttributeError iff single-product filtering reads a missing count; otherwise returns a subsequence of the table holding exactly the primers that amplify `count` other genomes and pass every enabled filter |
| Classifier.UniquePrimers | find_differential_primers/find_differential_primers.py:245-254 | `get_unique_primers` is the count-0 query: exactly the passing primers that amplify no other genome |
| Classifier.FamilyUniquePrimers | find_differential_primers/find_differential_primers.py:256-295 | `get_family_unique_primers`: raises like the others; otherwise returns a subsequence holding exactly the passing primers whose amplified genomes plus this genome equal the family's members |
| Classifier.DisabledFiltersRemoveNothing | find_differential_primers/find_differential_primers.py:309-329 | with every flag off, a query returns its base selection unchanged |
| Classifier.QualifyingShrinks | find_differential_primers/find_differential_primers.py:309-329 | enabling more filters gives a subsequence of the result with fewer filters |
| Classifier.MoreFiltersFewerPrimers | find_differential_primers/find_differential_primers.py:297-332 | the same, for `get_primers_amplify_count` results |
| Classifier.SelectSameCondition | find_differential_primers/find_differential_primers.py:266-269 | two conditions that agree on every primer select the same list |
| Classifier.FamilySingletonIsUnique | find_differential_primers/find_differential_primers.py:253-269 | when no primer amplifies the genome itself, its family query for a one-member family `{name}` equals the unique query |
| Genome.Dashed | find_differential_primers/find_differential_primers.py:189-194 | a `-` config value means None, and any other value is kept |
| Genome.Resolve | find_differential_primers/find_differential_primers.py:1228-1229 | the `gddict` lookup finds the first genome of the list with that name, or None iff no genome has it |
| Genome.GenomeData.constructor | find_differential_primers/find_differential_primers.py:170-195 | the families are split on `,` unless `-`, the file names are `-` mapped to None, and the object starts with an empty primer table |
| Genome.NewPrimers | find_differential_primers/find_differential_primers.py:780-784 | the i-th loaded design becomes primer number i + 1, and their names are unique |
| Genome.FreshOnly | find_differential_primers/find_differential_primers.py:790 | exactly the primers whose names are not yet taken |
| Genome.LoadStep | find_differential_primers/find_differential_primers.py:790 | one `setdefault` step: the table grows by the new primer iff its name is not already a key |
| Genome.GenomeData.LoadPrimers | find_differential_primers/find_differential_primers.py:771-793 | raises IOError when there is no primer file, leaving the table alone; raises AttributeError when there is no sequence file and at least one design, after `setdefault` has added the first primer; otherwise it appends the new primers whose names are not already keys; on an empty table the result is exactly the numbered primers; keys stay unique |
| Genome.GenomeData.SetDefault | find_differential_primers/find_differential_primers.py:790 | `dict.setdefault`: an existing key keeps its primer, and a new key is appended |
| Genome.OverlapIdsMeaning | find_differential_primers/find_differential_primers.py:855-858 | the collected overlap ids are exactly the non-`-1` ids found in some cluster region |
| Genome.OverlapIds | find_differential_primers/find_differential_primers.py:855-858 | the union of the primer ids of all clusters; `Genome.OverlapIdsMeaning` states its membership |
| Genome.GenomeData.MarkCdsOverlap | find_differential_primers/find_differential_primers.py:855-862 | every primer whose index is in some cluster gets `cds_overlap` set; no other primer or field changes |
| Genome.Gc3Filtered | find_differential_primers/find_differential_primers.py:874-879 | the GC test applied to every primer, keys and order unchanged |
| Genome.Gc3FilterIdempotent | find_differential_primers/find_differential_primers.py:866-879 | applying the GC filter twice equals applying it once |
| Genome.GenomeData.FilterGc3Prime | find_differential_primers/find_differential_primers.py:866-881 | the in-place loop leaves the table equal to `Gc3Filtered` of the old table |
| Genome.OligoFiltered | find_differential_primers/find_differential_primers.py:897-903 | raises iff some primer's oligo check raises, with the error of the first such primer; otherwise applies the test to every primer with keys and order unchanged |
| Genome.OligoFilterIdempotent | find_differential_primers/find_differential_primers.py:885-903 | applying the oligo filter twice equals applying it once |
| Genome.OligoCheckedTwice | find_differential_primers/find_differential_primers.py:897-903 | checking one primer twice equals checking it once |
| Genome.GenomeData.FilterOligo | find_differential_primers/find_differential_primers.py:885-905 | succeeds iff no oligo check raises, and then leaves the table equal to `OligoFiltered` of the old table; after an error, the primers before the raising one are checked and the rest untouched; the keys never change |
| Blast.HitDecision | find_differential_primers/find_differential_primers.py:1039-1044 | a record counts as a hit iff it has an alignment and the first HSP's identities over the query length is at least 0.9; reading a missing HSP or dividing by a zero length raises |
| Blast.RatioAtLeastNineTenths | find_differential_primers/find_differential_primers.py:1040-1042 | `identities / query_letters >= 0.9` iff `10 * identities >= 9 * query_letters` |
| Blast.ReadablePrefix | find_differential_primers/find_differential_primers.py:1033-1048 | the records read before the first one that raises; the bare `except` ends the parse there |
| Blast.BlastFailures | find_differential_primers/find_differential_primers.py:1033-1044 | the primer names of the hit records in the readable prefix; `Blast.ProcessBlastXml` and `Blast.FailingPrimerReported` state what it holds |
| Blast.ProcessBlastXml | find_differential_primers/find_differential_primers.py:1016-1044 | the loop's set of failing names is exactly the primer names of the hit records read before the first error |
| Blast.FailingPrimerReported | find_differential_primers/find_differential_primers.py:1039-1044 | a hit on either BLAST query id of a primer reports that primer's name |
| Blast.ClearBlast | find_differential_primers/find_differential_primers.py:1008 | `blastpass` cleared for the named primers only, all else unchanged |
| Blast.ClearBlastTwice | find_differential_primers/find_differential_primers.py:1005-1008 | clearing for two name sets in turn equals clearing for their union, so repeated names and repeated files are harmless |
| Blast.ClearBlastAddOne | find_differential_primers/find_differential_primers.py:1008 | adding one name clears exactly that primer's flag |
| Blast.ClearBlastKeepsNames | find_differential_primers/find_differential_primers.py:1008 | clearing flags keeps the keys and their uniqueness |
| Blast.FailuresOfStep | find_differential_primers/find_differential_primers.py:1007 | one more failing name counts for its owner genome only |
| Blast.MarkBlastFailures | find_differential_primers/find_differential_primers.py:1002-1009 | succeeds iff every failing name has a known owner genome holding a primer of that name (otherwise KeyError); on success each genome's table is its old table with `blastpass` cleared for exactly the failing names it owns |
| Blast.ParseBlast | find_differential_primers/find_differential_primers.py:983-1012 | the same, for the union of the failing sets of every genome's BLAST output |
| Classify.TargetOfPairFile | find_differential_primers/find_differential_primers.py:1237-1239 | the target name read back from `<dir>/<q>_vs_<t>.primersearch` is `t` for any `/`-free names, dots included, when `_vs_` occurs only between the two names |
| Classify.TargetName | find_differential_primers/find_differential_primers.py:1237-1239 | the basename without extension, after its last `_vs_`; `Classify.TargetOfPairFile` states that it gives back the target of a pair file |
| Classify.UnderscoreFreeNamesPair | find_differential_primers/find_differential_primers.py:1237-1239 | with `_`-free genome names, `_vs_` occurs only at the joint |
| Classify.SplitExtOfPairStem | find_differential_primers/find_differential_primers.py:1132-1133 | the `.primersearch` extension splits off exactly from any `/`-free stem with a character other than `.`, whatever dots the stem holds |
| Classify.PairFile | find_differential_primers/find_differential_primers.py:1131-1133 | `os.path.join(outdir, "%s_vs_%s.primersearch" % (query, target))`; `Classify.TargetOfPairFile` reads the target back from it |
| Classify.PairFiles | find_differential_primers/find_differential_primers.py:1128-1134 | one output file per other genome object in the list |
| Classify.PairFileCount | find_differential_primers/find_differential_primers.py:1126-1134 | with distinct genome objects, every query gets `len(gdlist) - 1` files |
| Classify.PairFilesTargets | find_differential_primers/find_differential_primers.py:1126-1134 | every listed file reads back as a target that is another genome of the list, for `/`-free names where `_vs_` occurs in each `<q>_vs_<t>` only between the names |
| Classify.ListPairFiles | find_differential_primers/find_differential_primers.py:1127-1134 | the inner loop lists the query's pair files, and fails (AttributeError on a missing sequence file) iff some other genome needs the query's directory |
| Classify.PrimerSearchOutputs | find_differential_primers/find_differential_primers.py:1126-1134 | every genome's `primersearch_output` becomes its pair-file list; the primer tables are untouched |
| Classify.AddAmplification | find_differential_primers/find_differential_primers.py:1251-1256 | each primer with at least one amplimer gains the target genome and all of its families; other primers are unchanged; a reported primer that is not a key, or a target without families, raises |
| Classify.SetNegativeControl | find_differential_primers/find_differential_primers.py:1263-1264 | each reported primer's negative-control count becomes its amplimer count and nothing else changes; a reported name that is not a key raises KeyError |
| Classify.ClassifyFile | find_differential_primers/find_differential_primers.py:1236-1266 | processing one result file keeps the primer table's keys |
| Classify.ClassifyFileIdempotent | find_differential_primers/find_differential_primers.py:1244-1264 | processing the same file a second time changes nothing |
| Classify.AddAmplificationTwice | find_differential_primers/find_differential_primers.py:1251-1256 | adding the same target's amplifications a second time changes nothing |
| Classify.SetNegativeControlTwice | find_differential_primers/find_differential_primers.py:1263-1264 | recording the same negative-control counts a second time changes nothing |
| Classify.UnknownTargetKeepsAmplification | find_differential_primers/find_differential_primers.py:1244-1264 | a file whose target is not in the collection changes no amplification set, and changes nothing at all unless its path mentions `negative_control` |
| Classify.ClassifyFiles | find_differential_primers/find_differential_primers.py:1234-1266 | processing a genome's files in order keeps its keys |
| Classify.ClassifyFilesStopsAtError | find_differential_primers/find_differential_primers.py:1234-1266 | once a file raises, the whole run raises |
| Classify.ClassifyGenome | find_differential_primers/find_differential_primers.py:1232-1268 | the file loop for one genome: succeeds iff the file list exists and no file raises, and then the table is the files applied in order; the keys never change |
| Classify.ClassifyPrimers | find_differential_primers/find_differential_primers.py:1215-1270 | `classify_primers`: succeeds iff every genome's file run succeeds, and then each genome's table is its own files applied in order; keys and file lists never change |
| Classify.LogOutput | find_differential_primers/find_differential_primers.py:1513-1526 | empty iff logs are not kept; otherwise ` 2> ` + (log_dir joined with the name, or the name alone) + `.log` |
| Report.ReportFlags | find_differential_primers/find_differential_primers.py:1297 | the filters `write_report` enables: CDS unless `nocds`, GC as configured, the oligo flag exactly when `blastfilter` (the positional slip), single product as configured; the BLAST flag never counts |
| Report.FamilyMap | find_differential_primers/find_differential_primers.py:1292-1295 | `families[f]` exists iff some genome lists `f`, and holds exactly the names of the genomes listing `f` |
| Report.FamilyMembers | find_differential_primers/find_differential_primers.py:1292-1295 | the loop builds exactly `FamilyMap`, or raises TypeError when some genome has no families |
| Report.AddMember | find_differential_primers/find_differential_primers.py:1294-1295 | one genome's families each gain its name, and no other entry changes |
| Report.Str | find_differential_primers/find_differential_primers.py:1356-1358 | `str()` of a file name gives `None` for a missing one |
| Report.SummaryRowFields | find_differential_primers/find_differential_primers.py:1353-1358 | a summary row splits back on tabs into seven fields: the name, the families joined by `,`, two decimal counts that read back as the unique and universal counts, and the three file names; the family field splits back into the families |
| Report.SummaryRowSplit | find_differential_primers/find_differential_primers.py:1353-1358 | the tab split of a row is its seven fields |
| Report.SummaryRow | find_differential_primers/find_differential_primers.py:1353-1358 | one summary line joined by tabs; `Report.SummaryRowFields` and `Report.SummaryRowSplit` state its fields |
| Report.FamilyLists | find_differential_primers/find_differential_primers.py:1342-1345 | raises AttributeError iff the family query of one listed family raises; otherwise the j-th list is the result of the family query for the j-th listed family |
| Report.GenomeQueries | find_differential_primers/find_differential_primers.py:1337-1358 | one genome's three queries raise iff one of them meets a missing negative-control count; otherwise its report lists its own families |
| Report.GenomeQueriesMeaning | find_differential_primers/find_differential_primers.py:1337-1358 | one genome's contribution: the unique and universal lists are the passing primers amplifying none, or `count`, other genomes; each family's list is the passing primers whose amplified genomes plus the genome equal that family; the row carries both list lengths |
| Report.Reports | find_differential_primers/find_differential_primers.py:1324-1358 | the loop raises iff some genome's queries raise; otherwise one report per genome in order |
| Report.ReportsAllOk | find_differential_primers/find_differential_primers.py:1324-1358 | when every genome's queries succeed, the loop's result is exactly those reports |
| Report.ReportsErr | find_differential_primers/find_differential_primers.py:1337-1350 | one raising genome makes the report raise AttributeError |
| Report.AddListsMeaning | find_differential_primers/find_differential_primers.py:1342-1346 | after the family loop a family has a list iff it had one or the genome lists it, and a primer is in it iff it was before or is in that family's query result |
| Report.FamilyTotalsMeaning | find_differential_primers/find_differential_primers.py:1320-1346 | the accumulated `family_specific_primers` has an entry exactly for the families some report lists, and a primer is in a family's entry iff some genome's query for that family returned it |
| Report.AllUniversalMeaning | find_differential_primers/find_differential_primers.py:1319-1351 | a primer is in `all_universal_primers` iff some genome's universal query returned it |
| Report.AccumulateStep | find_differential_primers/find_differential_primers.py:1346-1358 | one loop iteration appends the row, adds the family lists and appends the universal list |
| Report.ReportOf | find_differential_primers/find_differential_primers.py:1274-1372 | `write_report`'s data: TypeError when some genome has no families; NameError (`universal_primers` unbound) for an empty list; otherwise it raises iff some genome's queries raise |
| Report.WriteReport | find_differential_primers/find_differential_primers.py:1274-1372 | the method (family loop, then genome loop) computes exactly `ReportOf` with the flags `write_report` passes |
| Report.GatherReports | find_differential_primers/find_differential_primers.py:1316-1358 | the accumulation loop computes exactly the rows, family lists, universal list and last universal list of the genomes' reports, or the first error |
| Report.AddFamilyLists | find_differential_primers/find_differential_primers.py:1342-1346 | the inner family loop computes exactly `AddLists` |
| Report.ReportRows | find_differential_primers/find_differential_primers.py:1348-1358 | one summary row per genome, in order, carrying the lengths of its unique and universal query results |
| Report.UniversalPrimers | find_differential_primers/find_differential_primers.py:1316-1351 | `all_universal_primers` holds exactly the primers, of any genome, that amplify `len(gdlist) - 1` other genomes and pass the enabled filters |
| Report.FamilySpecificKeys | find_differential_primers/find_differential_primers.py:1320-1346 | `family_specific_primers` has an entry exactly for the families some genome lists |
| Report.FamilySpecificPrimers | find_differential_primers/find_differential_primers.py:1341-1346 | a primer is in family `f`'s list iff some genome listing `f` owns it, it passes the filters, and its amplified genomes plus that genome are exactly `f`'s members |
| Report.UniversalFileIsLastGenome | find_differential_primers/find_differential_primers.py:1372-1374 | the universal primer file gets the last genome's universal query result, not the gathered list |
| Report.OneGenomeUniversalIsUnique | find_differential_primers/find_differential_primers.py:1316 | with one genome the universal count is 0, so the universal primers are the unique primers |
| Config.ConfigLines | find_differential_primers/find_differential_primers.py:556-557 | the lines kept are stripped and non-empty |
| Config.ConfigLinesAppend | find_differential_primers/find_differential_primers.py:556-557 | line selection distributes over concatenation |
| Config.ConfigLinesSkipped | find_differential_primers/find_differential_primers.py:556-557 | blank and `#` lines are all skipped |
| Config.ConfigLinesKept | find_differential_primers/find_differential_primers.py:556-557 | stripped, non-empty, non-`#` lines are all kept unchanged |
| Config.NonBlank | find_differential_primers/find_differential_primers.py:559 | the columns kept are stripped and non-empty |
| Config.EmptyColumnIgnored | find_differential_primers/find_differential_primers.py:559 | an empty column between tabs is dropped, shifting the later columns |
| Config.LineValues | find_differential_primers/find_differential_primers.py:559 | every value kept from a line is stripped and non-empty |
| Config.Unpack | find_differential_primers/find_differential_primers.py:560 | six values unpack in order; any other number raises ValueError |
| Config.ParseConfigLine | find_differential_primers/find_differential_primers.py:559-560 | a line parses iff it has exactly six non-blank columns, and the entry's columns are those values |
| Config.ParseJoinedColumns | find_differential_primers/find_differential_primers.py:559-560 | six clean, tab-free values joined by tabs parse back to the same entry |
| Config.UnpackAll | find_differential_primers/find_differential_primers.py:556-561 | the loop raises iff some line does not have six values; otherwise one entry per line |
| Config.ConfigEntriesMeaning | find_differential_primers/find_differential_primers.py:556-561 | reading a file raises iff one of its kept lines fails to parse; otherwise there is one entry per kept line, each the parse of its line |
| Config.ConfigEntries | find_differential_primers/find_differential_primers.py:556-561 | the entries of the kept lines, or the first unpacking error; `Config.ConfigEntriesMeaning` states it line by line |
| Config.ConfigEntriesOfParsed | find_differential_primers/find_differential_primers.py:556-561 | when every kept line parses, the file reads as exactly those entries |
| Config.BuildGenomes | find_differential_primers/find_differential_primers.py:561 | one new, distinct `GenomeData` per entry, in order, each built from its entry |
| Config.CreateGenomesFromConfig | find_differential_primers/find_differential_primers.py:552-566 | `create_gd_from_config`: ValueError iff some kept line has the wrong number of columns; otherwise one new genome per kept line, in order |
| BuildConfig.WithExtension | sample/build_config_file.py:106-107 | a file name is kept iff its `splitext` extension is one of those given |
| BuildConfig.WithExtensionAppend | sample/build_config_file.py:106-107 | the selection distributes over concatenation |
| BuildConfig.InputFiles | sample/build_config_file.py:98-108 | the selected names, in order, each joined to the directory |
| BuildConfig.FastaFileSelection | sample/build_config_file.py:111-117 | a path is returned iff it is the directory joined with a listed name whose extension is `.fasta`, `.fas`, `.fa` or `.fna` |
| BuildConfig.HeaderLines | sample/build_config_file.py:126-135 | twelve header lines |
| BuildConfig.CommentSkipped | sample/build_config_file.py:126-135 | every header line starts with `#` and the reader skips it |
| BuildConfig.FileEntry | sample/build_config_file.py:137-139 | a file's six columns are `[stem, stem, path, '-', '-', '-']` |
| BuildConfig.DataLine | sample/build_config_file.py:139 | the six columns of a file's entry joined by tabs; `BuildConfig.DataLineFields` and `BuildConfig.DataLineReadsBack` state that it splits and reads back |
| BuildConfig.DataLineFields | sample/build_config_file.py:137-139 | a data line splits back on tabs into exactly those six fields |
| BuildConfig.FileColumnsSplit | sample/build_config_file.py:139 | six columns with tab-free stem and path, joined by tabs, split back into the same six columns |
| BuildConfig.DataLineUnbroken | sample/build_config_file.py:137-139 | a data line holds no line break when its path holds none |
| BuildConfig.FileColumnsUnbroken | sample/build_config_file.py:139 | six columns without line breaks, joined by tabs, hold no line break |
| BuildConfig.StemChars | sample/build_config_file.py:137-138 | the stem has no character the path lacks |
| BuildConfig.WriteConfigFile | sample/build_config_file.py:121-139 | the loop writes the header, a blank line and one data line per file, in order |
| BuildConfig.FileTextLines | sample/build_config_file.py:125-139 | the written text splits into the header lines, one blank line, the data lines and a final empty piece |
| BuildConfig.ConfigTextLines | sample/build_config_file.py:125-139 | the same for the generated file, whose header lines all start with `#` |
| BuildConfig.DataLineReadsBack | sample/build_config_file.py:139 | a data line is kept by the reader and parses back to the file's entry |
| BuildConfig.FileTextConfigLines | sample/build_config_file.py:125-139 | the reader keeps exactly the data lines of a written file |
| BuildConfig.FileTextReadsBack | sample/build_config_file.py:125-139 | a written file reads back as the entries of its data lines |
| BuildConfig.ConfigRoundTrip | sample/build_config_file.py:121-139 | writing a config for a file list and reading it back gives one entry per file, in order, each `[stem, stem, path, '-', '-', '-']` |
| BuildConfig.FileGenome | sample/build_config_file.py:139 | the genome built from a written line is named by the stem, has family `[stem]`, the path as sequence file and no other files |
| BuildConfig.WriteAndReadBack | sample/build_config_file.py:121-139 | writing then reading back succeeds and gives one genome per input file, built from that file's entry |

## Left out

- I/O becomes parameters:
  - the Primer3 file contents are a `seq<PrimerDesign>`;
  - each PrimerSearch result file is a map from primer name to amplimer count, and a missing file raises IOError;
  - a BLAST XML file is a `seq<BlastRecord>`;
  - the config file is its text;
  - `os.listdir` is a name list in listing order;
  - `time.asctime()` is a text parameter.
- Biopython and bx-python are not modelled:
  - the record parsers and `SeqIO`;
  - `ClusterTree` in `filter_primers`, whose regions are an input to `Genome.GenomeData.MarkCdsOverlap`, so the overlap over-reporting the docstring admits is inherited, not modelled;
  - loading the feature file.
- The amplicon that `load_primers` cuts from the genome sequence is not modelled: `Genome.GenomeData.LoadPrimers` states only when reading `gd.sequence` raises. `load_sequence` and its FASTA parse are left out with the other Biopython calls.
- `write_primers`, `write_eprimer3`, the FASTA writes, `blast_screen`'s FASTA output beyond the query ids, and `clean_output` are file output, so they are left out.
- Left out from `write_report`: the summary table's header lines and the writing of the per-genome, family and universal ePrimer3 files. The data they are written from is modelled.
- External programs and concurrency are left out: PrimerSearch, BLAST, ePrimer3, the command-line builders and the `multiprocessing.Pool` of `parse_blast`. The pool's results are processed in list order, as `Blast.ParseBlast` takes them.
- Python 2 dictionary order: every dictionary the core iterates (`gd.primers`, `family_specific_primers`) is modelled in one fixed order. Python 2 iterates in hash order, so the order of the listed primers and of the family files is one possible order, not the only one.
- Logging and timing, the command-line options and the script section are left out; the options become parameters.
- The `Primer` object's other Biopython attributes are not modelled.
- Primers are held as values, not shared objects. That is enough because no list outlives the update of the primers it holds.
- `Blast.MarkBlastFailures`: when a failing name has no owner or no such primer, the source raises KeyError part way through. The contract then states only that keys are unchanged, not which flags were already cleared.
- `Classify.ClassifyPrimers`: after a raising file, the tables of genomes already processed are not described beyond their keys.
- `Classify.ClassifyGenome`: after a raising file, the table is described only by its keys.
- `Classify.ClassifyFile`: its own contract states only that keys are kept. What it does to each primer is stated by `Classify.AddAmplification`, `Classify.SetNegativeControl` and the lemmas about it.
- `Classify.LogOutput`: `options.log_dir` being None or empty is modelled as an empty string.
- `Config.CreateGenomesFromConfig`: lines are given already split on `\n`. Universal-newline handling of `\r` is not modelled.
- `Blast.HitDecision`: the identity ratio is an exact real division. Floating-point rounding of `float(a) / float(b)` is not modelled.
