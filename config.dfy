/**
 * `create_gd_from_config`: the genome list read from a tab-separated config
 * file. Blank lines and lines starting with '#' are skipped; each remaining
 * line has its blank columns dropped and must leave exactly six values,
 * from which one `GenomeData` object is built.
 */
module Config {
  import opened Wrappers
  import opened PyStr
  import opened Genome

  /** The six values of one config line, in column order. */
  datatype ConfigEntry = ConfigEntry(name: string, families: string, seqFile: string,
                                     ftFile: string, primerFile: string, primersearchFile: string)

  /**
   * A line that describes a genome: something is left after stripping, and
   * the line as read does not start with '#'. (The '#' test is made on the
   * unstripped line, so an indented '#' does not make a comment.)
   */
  predicate IsConfigLine(line: string) {
    Strip(line) != "" && !StartsWith(line, "#")
  }

  /** The list the reading loop walks over: the stripped config lines, in file order. */
  function ConfigLines(lines: seq<string>): (r: seq<string>)
    ensures |r| <= |lines|
    ensures forall k :: 0 <= k < |r| ==> r[k] != "" && IsStripped(r[k])
  {
    if lines == [] then []
    else (if IsConfigLine(lines[0]) then [Strip(lines[0])] else []) + ConfigLines(lines[1..])
  }

  lemma {:induction false} ConfigLinesAppend(a: seq<string>, b: seq<string>)
    ensures ConfigLines(a + b) == ConfigLines(a) + ConfigLines(b)
  {
    if a != [] {
      assert (a + b)[1..] == a[1..] + b;
      ConfigLinesAppend(a[1..], b);
    } else {
      assert a + b == b;
    }
  }

  /** Lines that are blank or start with '#' contribute nothing. */
  lemma {:induction false} ConfigLinesSkipped(lines: seq<string>)
    requires forall k :: 0 <= k < |lines| ==> !IsConfigLine(lines[k])
    ensures ConfigLines(lines) == []
  {
    if lines != [] {
      ConfigLinesSkipped(lines[1..]);
    }
  }

  /** Lines that are already stripped, non-empty and not comments are kept as they are. */
  lemma {:induction false} ConfigLinesKept(lines: seq<string>)
    requires forall k :: 0 <= k < |lines| ==> lines[k] != "" && IsStripped(lines[k]) && !StartsWith(lines[k], "#")
    ensures ConfigLines(lines) == lines
  {
    if lines != [] {
      ConfigLinesKept(lines[1..]);
      assert lines == [lines[0]] + lines[1..];
    }
  }

  /** `[e.strip() for e in parts if e.strip()]`: the stripped values of the non-blank columns. */
  function NonBlank(parts: seq<string>): (r: seq<string>)
    ensures |r| <= |parts|
    ensures forall k :: 0 <= k < |r| ==> r[k] != "" && IsStripped(r[k])
  {
    if parts == [] then []
    else (if Strip(parts[0]) != "" then [Strip(parts[0])] else []) + NonBlank(parts[1..])
  }

  /** Values that are already stripped and non-empty all survive, in order. */
  lemma {:induction false} NonBlankOfClean(parts: seq<string>)
    requires forall k :: 0 <= k < |parts| ==> parts[k] != "" && IsStripped(parts[k])
    ensures NonBlank(parts) == parts
  {
    if parts != [] {
      NonBlankOfClean(parts[1..]);
      assert parts == [parts[0]] + parts[1..];
    }
  }

  lemma {:induction false} NonBlankAppend(a: seq<string>, b: seq<string>)
    ensures NonBlank(a + b) == NonBlank(a) + NonBlank(b)
  {
    if a != [] {
      assert (a + b)[1..] == a[1..] + b;
      NonBlankAppend(a[1..], b);
    } else {
      assert a + b == b;
    }
  }

  /** An empty column, as between two adjacent tabs, is dropped: "columns may be separated by multiple tabs". */
  lemma {:induction false} EmptyColumnIgnored(a: seq<string>, b: seq<string>)
    ensures NonBlank(a + [""] + b) == NonBlank(a + b)
  {
    var x := a + [""] + b;
    if a == [] {
      assert x == [""] + b && x[1..] == b;
      assert Strip("") == "";
      assert a + b == b;
    } else {
      assert x[0] == (a + b)[0] == a[0];
      assert x[1..] == a[1..] + [""] + b;
      assert (a + b)[1..] == a[1..] + b;
      EmptyColumnIgnored(a[1..], b);
    }
  }

  /** The six values of an entry, in column order. */
  function Columns(e: ConfigEntry): seq<string> {
    [e.name, e.families, e.seqFile, e.ftFile, e.primerFile, e.primersearchFile]
  }

  /** `[e.strip() for e in line.strip().split('\t') if e.strip()]` */
  function LineValues(line: string): (r: seq<string>)
    ensures forall k :: 0 <= k < |r| ==> r[k] != "" && IsStripped(r[k])
  {
    NonBlank(Split(Strip(line), "\t"))
  }

  /** `name, family, sfile, ffile, pfile, psfile = tuple(data)`: six values, or ValueError. */
  function Unpack(data: seq<string>): (r: Result<ConfigEntry, PyError>)
    ensures r.Err? <==> |data| != 6
    ensures r.Err? ==> r.error == ValueError
    ensures r.Ok? ==> Columns(r.value) == data
  {
    if |data| != 6 then Err(ValueError)
    else Ok(ConfigEntry(data[0], data[1], data[2], data[3], data[4], data[5]))
  }

  /**
   * The body of the reading loop for one line: split on tabs, drop blank
   * columns, and unpack the rest into six values; any other number of
   * values raises ValueError.
   */
  function ParseConfigLine(line: string): (r: Result<ConfigEntry, PyError>)
    ensures r.Err? <==> |LineValues(line)| != 6
    ensures r.Err? ==> r.error == ValueError
    ensures r.Ok? ==> Columns(r.value) == LineValues(line)
  {
    Unpack(LineValues(line))
  }

  /**
   * Six tab-joined values that are non-empty, stripped and tab-free are read
   * back as exactly these values: the parser inverts `'\t'.join`.
   */
  lemma ParseJoinedColumns(e: ConfigEntry)
    requires forall v :: v in Columns(e) ==> v != "" && IsStripped(v) && '\t' !in v
    ensures var line := Join(Columns(e), "\t");
            line != "" && IsStripped(line) && line[..|e.name|] == e.name
    ensures ParseConfigLine(Join(Columns(e), "\t")) == Ok(e)
  {
    var cols := Columns(e);
    assert forall k :: 0 <= k < 6 ==> cols[k] in cols;
    var line := Join(cols, "\t");
    JoinEnds(cols, "\t");
    assert line[0] == cols[0][0] by { assert line[..|cols[0]|] == cols[0]; }
    assert line[|line| - 1] == cols[5][|cols[5]| - 1] by { assert line[|line| - |cols[5]|..] == cols[5]; }
    assert IsStripped(line);
    assert line[..|cols[0]|] == cols[0];
    SplitJoin(cols, '\t');
    NonBlankOfClean(cols);
  }

  /** The values of each selected line, split as the reading loop splits them. */
  function AllLineValues(lines: seq<string>): (r: seq<seq<string>>)
    ensures |r| == |lines| && forall k :: 0 <= k < |lines| ==> r[k] == LineValues(lines[k])
  {
    seq(|lines|, k requires 0 <= k < |lines| => LineValues(lines[k]))
  }

  /**
   * The entries of the whole file: the lines' values are unpacked in order
   * and the first line that does not give six values raises ValueError.
   */
  function UnpackAll(data: seq<seq<string>>): (r: Result<seq<ConfigEntry>, PyError>)
    ensures r.Err? <==> exists k :: 0 <= k < |data| && |data[k]| != 6
    ensures r.Err? ==> r.error == ValueError
    ensures r.Ok? ==> |r.value| == |data| && forall k :: 0 <= k < |data| ==> Ok(r.value[k]) == Unpack(data[k])
  {
    if data == [] then Ok([])
    else match Unpack(data[0])
      case Err(e) => Err(e)
      case Ok(first) =>
        match UnpackAll(data[1..])
        case Err(e) => Err(e)
        case Ok(rest) =>
          assert forall k :: 1 <= k < |data| ==> data[k] == data[1..][k - 1];
          Ok([first] + rest)
  }

  /** What reading a config file gives, before any object is built. */
  function ConfigEntries(lines: seq<string>): Result<seq<ConfigEntry>, PyError> {
    UnpackAll(AllLineValues(ConfigLines(lines)))
  }

  /** Some line of `sel` does not hold six values. */
  predicate SomeLineFails(sel: seq<string>) {
    exists k :: 0 <= k < |sel| && ParseConfigLine(sel[k]).Err?
  }

  /** Unpacking values that stand for lines one by one reads the lines one by one. */
  lemma UnpackAllOfLines(data: seq<seq<string>>, sel: seq<string>)
    requires |data| == |sel|
    requires forall k :: 0 <= k < |sel| ==> Unpack(data[k]) == ParseConfigLine(sel[k])
    ensures UnpackAll(data).Err? <==> SomeLineFails(sel)
    ensures UnpackAll(data).Ok? ==> forall k :: 0 <= k < |sel| ==> Ok(UnpackAll(data).value[k]) == ParseConfigLine(sel[k])
  {
    var r := UnpackAll(data);
    if r.Err? {
      var k :| 0 <= k < |data| && |data[k]| != 6;
      assert ParseConfigLine(sel[k]).Err?;
    }
  }

  /**
   * Reading fails exactly when some config line does not hold six values
   * (ValueError); otherwise there is one entry per config line, in file
   * order, each the parse of its line.
   */
  lemma ConfigEntriesMeaning(lines: seq<string>)
    ensures var sel := ConfigLines(lines);
            && (ConfigEntries(lines).Err? <==> SomeLineFails(sel))
            && (ConfigEntries(lines).Ok? ==>
                  |ConfigEntries(lines).value| == |sel|
                  && forall k :: 0 <= k < |sel| ==> Ok(ConfigEntries(lines).value[k]) == ParseConfigLine(sel[k]))
  {
    var sel := ConfigLines(lines);
    var values := AllLineValues(sel);
    forall k | 0 <= k < |sel|
      ensures Unpack(values[k]) == ParseConfigLine(sel[k])
    {
    }
    UnpackAllOfLines(values, sel);
  }

  /** Values that each unpack to an entry unpack, all together, to these entries in order. */
  lemma {:induction false} UnpackAllOk(data: seq<seq<string>>, entries: seq<ConfigEntry>)
    requires |data| == |entries|
    requires forall i :: 0 <= i < |data| ==> Unpack(data[i]) == Ok(entries[i])
    ensures UnpackAll(data) == Ok(entries)
  {
    if data != [] {
      assert forall i :: 0 <= i < |data| - 1 ==> data[1..][i] == data[i + 1];
      UnpackAllOk(data[1..], entries[1..]);
      assert entries == [entries[0]] + entries[1..];
    }
  }

  /** Config lines that each parse to an entry read back as exactly these entries, in order. */
  lemma ConfigEntriesOfParsed(lines: seq<string>, sel: seq<string>, entries: seq<ConfigEntry>)
    requires ConfigLines(lines) == sel && |sel| == |entries|
    requires forall i :: 0 <= i < |sel| ==> ParseConfigLine(sel[i]) == Ok(entries[i])
    ensures ConfigEntries(lines) == Ok(entries)
  {
    var values := AllLineValues(sel);
    forall i | 0 <= i < |sel|
      ensures Unpack(values[i]) == Ok(entries[i])
    {
      assert Unpack(values[i]) == ParseConfigLine(sel[i]);
    }
    UnpackAllOk(values, entries);
  }

  /** `gd` is the `GenomeData` object that the constructor builds from `e`. */
  predicate BuiltFrom(gd: GenomeData, e: ConfigEntry)
    reads gd
  {
    && gd.name == e.name
    && gd.families == (if e.families == "-" then None else Some(Split(e.families, ",")))
    && gd.seqFilename == Dashed(e.seqFile) && gd.ftFilename == Dashed(e.ftFile)
    && gd.primerFilename == Dashed(e.primerFile)
    && gd.primersearchFilename == Dashed(e.primersearchFile)
    && gd.primers == [] && gd.primersearchOutput == None
  }

  /** The constructor loop of `create_gd_from_config`: one new, distinct `GenomeData` per entry, in order. */
  method BuildGenomes(entries: seq<ConfigEntry>) returns (gdlist: seq<GenomeData>)
    ensures |gdlist| == |entries|
    ensures forall k :: 0 <= k < |gdlist| ==> BuiltFrom(gdlist[k], entries[k])
    ensures forall k :: 0 <= k < |gdlist| ==> fresh(gdlist[k]) && gdlist[k].Valid()
    ensures forall i, j :: 0 <= i < j < |gdlist| ==> gdlist[i] != gdlist[j]
  {
    gdlist := [];
    var i := 0;
    while i < |entries|
      invariant 0 <= i <= |entries| && |gdlist| == i
      invariant forall k :: 0 <= k < i ==> BuiltFrom(gdlist[k], entries[k])
      invariant forall k :: 0 <= k < i ==> fresh(gdlist[k]) && gdlist[k].Valid()
      invariant forall j, k :: 0 <= j < k < i ==> gdlist[j] != gdlist[k]
    {
      var e := entries[i];
      var gd := new GenomeData(e.name, e.families, e.seqFile, e.ftFile, e.primerFile, e.primersearchFile);
      gdlist := gdlist + [gd];
      i := i + 1;
    }
  }

  /**
   * `create_gd_from_config` over the lines of the file: one new, distinct
   * `GenomeData` per config line, in file order, or ValueError when a
   * config line does not hold six values.
   */
  method CreateGenomesFromConfig(lines: seq<string>) returns (r: Result<seq<GenomeData>, PyError>)
    ensures r.Err? <==> ConfigEntries(lines).Err?
    ensures r.Err? ==> r.error == ValueError
    ensures r.Ok? ==> |r.value| == |ConfigEntries(lines).value|
    ensures r.Ok? ==> forall k :: 0 <= k < |r.value| ==> BuiltFrom(r.value[k], ConfigEntries(lines).value[k])
    ensures r.Ok? ==> forall k :: 0 <= k < |r.value| ==> fresh(r.value[k]) && r.value[k].Valid()
    ensures r.Ok? ==> forall i, j :: 0 <= i < j < |r.value| ==> r.value[i] != r.value[j]
  {
    var parsed := ConfigEntries(lines);
    if parsed.Err? {
      return Err(parsed.error);
    }
    var gdlist := BuildGenomes(parsed.value);
    r := Ok(gdlist);
  }
}
