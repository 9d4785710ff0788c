/**
 * `build_config_file.py`: choosing the FASTA files of an input directory
 * and writing the config file that `create_gd_from_config` reads back, one
 * data line per file with the file's stem as both name and family.
 */
module BuildConfig {
  import opened Wrappers
  import opened PyStr
  import opened Genome
  import opened Config

  // ------------------------------------------------------------------
  // Choosing the input files

  /** The extensions `get_fasta_files` passes to `get_input_files`. */
  const FastaExtensions: seq<string> := [".fasta", ".fas", ".fa", ".fna"]

  /** `[f for f in names if os.path.splitext(f)[-1] in exts]`, in listing order. */
  function WithExtension(names: seq<string>, exts: seq<string>): (r: seq<string>)
    ensures |r| <= |names|
    ensures forall n :: n in r <==> n in names && SplitExt(n).1 in exts
  {
    if names == [] then []
    else
      var rest := WithExtension(names[1..], exts);
      assert forall n :: n in names <==> n == names[0] || n in names[1..];
      (if SplitExt(names[0]).1 in exts then [names[0]] else []) + rest
  }

  /** The listing order is kept: the selection of a concatenation is the concatenation of the selections. */
  lemma {:induction false} WithExtensionAppend(a: seq<string>, b: seq<string>, exts: seq<string>)
    ensures WithExtension(a + b, exts) == WithExtension(a, exts) + WithExtension(b, exts)
  {
    if a == [] {
      assert a + b == b;
    } else {
      assert (a + b)[1..] == a[1..] + b;
      assert (a + b)[0] == a[0];
      WithExtensionAppend(a[1..], b, exts);
    }
  }

  /** `get_input_files(dir, *exts)` over the directory listing `names`: the selected names, each joined to `dir`. */
  function InputFiles(dir: string, names: seq<string>, exts: seq<string>): (r: seq<string>)
    ensures var sel := WithExtension(names, exts);
            |r| == |sel| && forall i :: 0 <= i < |sel| ==> r[i] == PathJoin(dir, sel[i])
  {
    var sel := WithExtension(names, exts);
    seq(|sel|, i requires 0 <= i < |sel| => PathJoin(dir, sel[i]))
  }

  /** `get_fasta_files`: the input files with a FASTA extension. */
  function FastaFiles(dir: string, names: seq<string>): seq<string> {
    InputFiles(dir, names, FastaExtensions)
  }

  /**
   * A listed name (which holds no '/') gives an input file exactly when its
   * extension is one of the FASTA ones, and the file's last component is
   * that name.
   */
  lemma FastaFileSelection(dir: string, names: seq<string>)
    requires forall k :: 0 <= k < |names| ==> '/' !in names[k]
    ensures forall f :: f in FastaFiles(dir, names) <==>
              exists n :: n in names && SplitExt(n).1 in FastaExtensions && f == PathJoin(dir, n)
    ensures forall f :: f in FastaFiles(dir, names) ==>
              Basename(f) in names && SplitExt(Basename(f)).1 in FastaExtensions
  {
    var sel := WithExtension(names, FastaExtensions);
    var r := FastaFiles(dir, names);
    forall f | f in r
      ensures exists n :: n in names && SplitExt(n).1 in FastaExtensions && f == PathJoin(dir, n)
      ensures Basename(f) in names && SplitExt(Basename(f)).1 in FastaExtensions
    {
      var i :| 0 <= i < |r| && r[i] == f;
      assert sel[i] in sel;
      BasenameOfJoin(dir, sel[i]);
    }
    forall n | n in names && SplitExt(n).1 in FastaExtensions
      ensures PathJoin(dir, n) in r
    {
      var i :| 0 <= i < |sel| && sel[i] == n;
      assert r[i] == PathJoin(dir, n);
    }
  }

  // ------------------------------------------------------------------
  // The written file

  /** Text without a line break. */
  type Text = s: string | '\n' !in s

  /** A line that the config reader skips as a comment: it starts with '#'. */
  type CommentLine = s: string | |s| > 0 && s[0] == '#' && '\n' !in s witness "#"

  function Comment(t: Text): CommentLine {
    "#" + t
  }

  // The fixed wording of the header lines, piece by piece.
  const TitleA: Text := " find_differential_"
  const TitleB: Text := "primers.py configuration"
  const StampA: Text := " Automatically generated"
  const StampB: Text := " by build_config_file.py, "
  const DefinesA: Text := " This file defines the "
  const DefinesB: Text := "following data, in "
  const DefinesC: Text := "tab-separated format:"
  const ColumnWord: Text := " Column "
  const LocationOf: Text := "Location of "
  const IfNone: Text := " ('-' if none)"
  const Column1: Text := "Entity abbreviation"
  const Column2A: Text := "Family/group for the "
  const Column2B: Text := "Entity, comma-separated "
  const Column2C: Text := "for multiple groups"
  const Column3A: Text := "sequence data in "
  const Column3B: Text := "FASTA format"
  const Column4A: Text := "GenBank file "
  const Column4B: Text := "describing features"
  const Column5: Text := "ePrimer3 primer definitions"
  const Column6A: Text := "PrimerSearch input "
  const Column6B: Text := "format primer definitions"
  const BlankA: Text := " BLANK COLUMNS ARE IGNORED!"
  const BlankB: Text := " USE '-' IF THERE IS NO DATA."

  /**
   * The comment block at the top of the file; `asctime` is the time of
   * writing, as `time.asctime()` renders it on one line.
   */
  function HeaderLines(asctime: Text): (r: seq<CommentLine>)
    ensures |r| == 12
  {
    [ Comment(TitleA + TitleB + " file"),
      Comment(StampA + StampB + asctime),
      Comment(""),
      Comment(DefinesA + DefinesB + DefinesC),
      Comment(ColumnWord + "1: " + Column1),
      Comment(ColumnWord + "2: " + Column2A + Column2B + Column2C),
      Comment(ColumnWord + "3: " + LocationOf + Column3A + Column3B),
      Comment(ColumnWord + "4: " + LocationOf + Column4A + Column4B + IfNone),
      Comment(ColumnWord + "5: " + LocationOf + Column5 + IfNone),
      Comment(ColumnWord + "6: " + LocationOf + Column6A + Column6B + IfNone),
      Comment(""),
      Comment(BlankA + BlankB) ]
  }

  /** A comment line is not a config line. */
  lemma CommentSkipped(s: CommentLine)
    ensures !IsConfigLine(s) && StartsWith(s, "#")
  {
    assert s[..1] == "#";
  }

  /** `os.path.splitext(os.path.split(filename)[-1])[0]`: the file's last component without its extension. */
  function Stem(path: string): string {
    SplitExt(Basename(path)).0
  }

  /** A character missing from the path is missing from its stem. */
  lemma StemChars(path: string, c: char)
    requires c !in path
    ensures c !in Stem(path)
  {
    var b := Basename(path);
    assert b == path[|path| - |b|..];
    assert forall k :: 0 <= k < |b| ==> b[k] in path;
    var st := SplitExt(b).0;
    assert st == b[..|st|];
    assert forall k :: 0 <= k < |st| ==> st[k] == b[k];
  }

  /** The six columns written for one file: its stem as name and as family, the path, and '-' three times. */
  function FileEntry(path: string): (e: ConfigEntry)
    ensures Columns(e) == [Stem(path), Stem(path), path, "-", "-", "-"]
  {
    ConfigEntry(Stem(path), Stem(path), path, "-", "-", "-")
  }

  /** The data line written for one file, without its line break. */
  function DataLine(path: string): string {
    Join(Columns(FileEntry(path)), "\t")
  }

  /** A data line splits on tabs into exactly its six columns when the path holds no tab. */
  lemma DataLineFields(path: string)
    requires '\t' !in path
    ensures Split(DataLine(path), "\t") == [Stem(path), Stem(path), path, "-", "-", "-"]
  {
    StemChars(path, '\t');
    FileColumnsSplit(Stem(path), path);
  }

  /** The six columns of a data line, with tab-free stem and path, split back apart. */
  lemma FileColumnsSplit(stem: string, path: string)
    requires '\t' !in stem && '\t' !in path
    ensures Split(Join([stem, stem, path, "-", "-", "-"], "\t"), "\t") == [stem, stem, path, "-", "-", "-"]
  {
    SplitJoin([stem, stem, path, "-", "-", "-"], '\t');
  }

  /** `[f(x) for x in s]`. */
  function Map<A, B>(f: A -> B, s: seq<A>): (r: seq<B>)
    ensures |r| == |s|
    decreases |s|
  {
    if s == [] then [] else Map(f, s[..|s| - 1]) + [f(s[|s| - 1])]
  }

  /** The `i`-th element of a mapped sequence is the image of the `i`-th element. */
  lemma {:induction false} MapAt<A, B>(f: A -> B, s: seq<A>, i: nat)
    requires i < |s|
    ensures Map(f, s)[i] == f(s[i])
    decreases |s|
  {
    var n := |s| - 1;
    if i < n {
      MapAt(f, s[..n], i);
      assert s[..n][i] == s[i];
    }
  }

  /** Mapping one more element appends its image. */
  lemma MapSnoc<A, B>(f: A -> B, s: seq<A>, i: nat)
    requires i < |s|
    ensures Map(f, s[..i + 1]) == Map(f, s[..i]) + [f(s[i])]
  {
    assert s[..i + 1][..i] == s[..i];
  }

  /** The data lines of `files`, in order. */
  function DataLineSeq(files: seq<string>): (r: seq<string>)
    ensures |r| == |files|
  {
    Map(DataLine, files)
  }

  /** The `i`-th data line is the data line of the `i`-th file. */
  lemma DataLineSeqAt(files: seq<string>, i: nat)
    requires i < |files|
    ensures DataLineSeq(files)[i] == DataLine(files[i])
  {
    MapAt(DataLine, files, i);
  }

  /** `lines`, each followed by a line break. */
  function Lines(lines: seq<string>): string {
    if lines == [] then ""
    else Lines(lines[..|lines| - 1]) + lines[|lines| - 1] + "\n"
  }

  /** A file made of the lines of `header`, an empty line, and then `lines`. */
  function FileText(header: seq<string>, lines: seq<string>): string {
    Join(header, "\n") + "\n\n" + Lines(lines)
  }

  /** The whole text `write_config_file` writes. */
  function ConfigText(asctime: Text, files: seq<string>): string {
    FileText(HeaderLines(asctime), DataLineSeq(files))
  }

  /** One more line extends a file text by that line and a line break. */
  lemma FileTextSnoc(header: seq<string>, lines: seq<string>, line: string)
    ensures FileText(header, lines + [line]) == FileText(header, lines) + line + "\n"
  {
    assert (lines + [line])[..|lines|] == lines;
  }

  /** The data lines of one more file end with that file's data line. */
  lemma DataLineSeqSnoc(files: seq<string>, i: nat)
    requires i < |files|
    ensures DataLineSeq(files[..i + 1]) == DataLineSeq(files[..i]) + [DataLine(files[i])]
  {
    MapSnoc(DataLine, files, i);
  }

  /** The data line of a path, spelled out column by column. */
  lemma DataLineColumns(path: string)
    ensures var stem := SplitExt(Basename(path)).0;
            DataLine(path) == Join([stem, stem, path, "-", "-", "-"], "\t")
  {
  }

  /** `write_config_file`: the header, then one data line per file in turn. */
  method WriteConfigFile(asctime: Text, files: seq<string>) returns (written: string)
    ensures written == ConfigText(asctime, files)
  {
    var header := HeaderLines(asctime);
    written := Join(header, "\n") + "\n\n";
    assert DataLineSeq(files[..0]) == [];
    var i := 0;
    while i < |files|
      invariant 0 <= i <= |files|
      invariant written == FileText(header, DataLineSeq(files[..i]))
    {
      var filename := files[i];
      var fn := Basename(filename);
      var fstem := SplitExt(fn).0;
      var line := Join([fstem, fstem, filename, "-", "-", "-"], "\t");
      DataLineColumns(filename);
      DataLineSeqSnoc(files, i);
      FileTextSnoc(header, DataLineSeq(files[..i]), line);
      written := written + line + "\n";
      i := i + 1;
    }
    assert files[..i] == files;
  }

  lemma {:induction false} FileTextAsJoin(header: seq<string>, lines: seq<string>)
    requires |header| >= 1
    ensures FileText(header, lines) == Join(header + [""] + lines, "\n") + "\n"
    ensures FileText(header, lines) == Join(header + [""] + lines + [""], "\n")
    decreases |lines|
  {
    var p := header + [""] + lines;
    if lines == [] {
      assert p == header + [""];
      JoinSnoc(header, "", "\n");
    } else {
      var init := lines[..|lines| - 1];
      var last := lines[|lines| - 1];
      FileTextAsJoin(header, init);
      var q := header + [""] + init;
      assert Lines(lines) == Lines(init) + last + "\n";
      calc {
        FileText(header, lines);
        Join(header, "\n") + "\n\n" + (Lines(init) + last + "\n");
        (Join(header, "\n") + "\n\n" + Lines(init)) + last + "\n";
        Join(q, "\n") + "\n" + last + "\n";
      }
      assert p == q + [last];
      JoinSnoc(q, last, "\n");
    }
    JoinSnoc(p, "", "\n");
  }

  /**
   * Read back line by line, a file text is its header lines, an empty
   * line, its lines in order, and the empty remainder after the last line
   * break.
   */
  lemma FileTextLines(header: seq<CommentLine>, lines: seq<string>)
    requires |header| >= 1
    requires forall i :: 0 <= i < |lines| ==> '\n' !in lines[i]
    ensures Split(FileText(header, lines), "\n") == header + [""] + lines + [""]
  {
    FileTextAsJoin(header, lines);
    var parts := header + [""] + lines + [""];
    assert forall k :: 0 <= k < |parts| ==> '\n' !in parts[k];
    SplitJoin(parts, '\n');
  }

  /** A data line holds no line break when its path holds none. */
  lemma DataLineUnbroken(path: string)
    requires '\n' !in path
    ensures '\n' !in DataLine(path)
  {
    StemChars(path, '\n');
    FileColumnsUnbroken(Stem(path), path);
  }

  /** The six columns of a data line hold no line break when the stem and path hold none. */
  lemma FileColumnsUnbroken(stem: string, path: string)
    requires '\n' !in stem && '\n' !in path
    ensures '\n' !in Join([stem, stem, path, "-", "-", "-"], "\t")
  {
    NotInJoin([stem, stem, path, "-", "-", "-"], "\t", '\n');
  }

  /**
   * The file `write_config_file` writes, read line by line: the twelve
   * header lines, all comments, an empty line, then one data line per file
   * in input order.
   */
  lemma ConfigTextLines(asctime: Text, files: seq<string>)
    requires forall i :: 0 <= i < |files| ==> '\n' !in files[i]
    ensures Split(ConfigText(asctime, files), "\n") == HeaderLines(asctime) + [""] + DataLineSeq(files) + [""]
    ensures forall k :: 0 <= k < 12 ==> StartsWith(HeaderLines(asctime)[k], "#")
  {
    var header := HeaderLines(asctime);
    var d := DataLineSeq(files);
    forall i | 0 <= i < |files|
      ensures '\n' !in d[i]
    {
      DataLineSeqAt(files, i);
      DataLineUnbroken(files[i]);
    }
    FileTextLines(header, d);
    forall k | 0 <= k < 12
      ensures StartsWith(header[k], "#")
    {
      CommentSkipped(header[k]);
    }
  }

  /** The conditions under which a written data line reads back as written. */
  predicate ReadsBack(path: string) {
    && '\n' !in path && '\t' !in path && IsStripped(path)
    && Stem(path) != "" && IsStripped(Stem(path)) && !StartsWith(Stem(path), "#")
  }

  /** The config entries the written file reads back as: one per file, in order. */
  function FileEntries(files: seq<string>): (r: seq<ConfigEntry>)
    ensures |r| == |files| && forall i :: 0 <= i < |files| ==> r[i] == FileEntry(files[i])
  {
    seq(|files|, i requires 0 <= i < |files| => FileEntry(files[i]))
  }

  /** A line that starts with a column that is not a comment is not a comment. */
  lemma FirstColumnNotComment(line: string, first: string)
    requires first != "" && |first| <= |line| && line[..|first|] == first
    requires !StartsWith(first, "#")
    ensures !StartsWith(line, "#")
  {
    assert line[..1] == line[..|first|][..1];
  }

  /** The data line of a file that reads back is a config line, kept as it is, and parses to the file's entry. */
  lemma DataLineReadsBack(path: string)
    requires ReadsBack(path)
    ensures var line := DataLine(path);
            line != "" && IsStripped(line) && !StartsWith(line, "#") && '\n' !in line
            && ParseConfigLine(line) == Ok(FileEntry(path))
  {
    var e := FileEntry(path);
    FileEntryClean(path);
    ParseJoinedColumns(e);
    var line := Join(Columns(e), "\t");
    FirstColumnNotComment(line, e.name);
    DataLineUnbroken(path);
  }

  /** The columns written for a file that reads back are non-empty, stripped and free of tabs. */
  lemma FileEntryClean(path: string)
    requires ReadsBack(path)
    ensures forall v :: v in Columns(FileEntry(path)) ==> v != "" && IsStripped(v) && '\t' !in v
  {
    var st := Stem(path);
    assert path != "" by {
      assert Basename("") == "";
    }
    StemChars(path, '\t');
    CleanColumns(st, path);
    assert Columns(FileEntry(path)) == [st, st, path, "-", "-", "-"];
  }

  /** The six written columns are clean when the stem and the path are. */
  lemma CleanColumns(st: string, path: string)
    requires st != "" && IsStripped(st) && '\t' !in st
    requires path != "" && IsStripped(path) && '\t' !in path
    ensures forall v :: v in [st, st, path, "-", "-", "-"] ==> v != "" && IsStripped(v) && '\t' !in v
  {
  }

  /** Of a file text, the config lines are exactly its lines, when they all are config lines as they stand. */
  lemma FileTextConfigLines(header: seq<CommentLine>, lines: seq<string>)
    requires |header| >= 1
    requires forall i :: 0 <= i < |lines| ==>
               lines[i] != "" && IsStripped(lines[i]) && !StartsWith(lines[i], "#") && '\n' !in lines[i]
    ensures ConfigLines(Split(FileText(header, lines), "\n")) == lines
  {
    FileTextLines(header, lines);
    forall k | 0 <= k < |header|
      ensures !IsConfigLine(header[k])
    {
      CommentSkipped(header[k]);
    }
    ConfigLinesAppend(header + [""] + lines, [""]);
    ConfigLinesAppend(header + [""], lines);
    ConfigLinesAppend(header, [""]);
    ConfigLinesSkipped(header);
    ConfigLinesSkipped([""]);
    ConfigLinesKept(lines);
  }

  /**
   * Reading back a header of comments and lines that each parse to an
   * entry gives exactly these entries, in order.
   */
  lemma FileTextReadsBack(header: seq<CommentLine>, lines: seq<string>, entries: seq<ConfigEntry>)
    requires |header| >= 1 && |lines| == |entries|
    requires forall i :: 0 <= i < |lines| ==>
               lines[i] != "" && IsStripped(lines[i]) && !StartsWith(lines[i], "#") && '\n' !in lines[i]
    requires forall i :: 0 <= i < |lines| ==> ParseConfigLine(lines[i]) == Ok(entries[i])
    ensures ConfigEntries(Split(FileText(header, lines), "\n")) == Ok(entries)
  {
    FileTextConfigLines(header, lines);
    ConfigEntriesOfParsed(Split(FileText(header, lines), "\n"), lines, entries);
  }

  /**
   * The round trip of the config file: reading back what
   * `write_config_file` wrote gives one entry per file, in order, with the
   * stem as name and family, the path as sequence file and '-' for the
   * other three columns.
   */
  lemma ConfigRoundTrip(asctime: Text, files: seq<string>)
    requires forall i :: 0 <= i < |files| ==> ReadsBack(files[i])
    ensures ConfigEntries(Split(ConfigText(asctime, files), "\n")) == Ok(FileEntries(files))
  {
    var d := DataLineSeq(files);
    var entries := FileEntries(files);
    forall i | 0 <= i < |files|
      ensures d[i] != "" && IsStripped(d[i]) && !StartsWith(d[i], "#") && '\n' !in d[i]
      ensures ParseConfigLine(d[i]) == Ok(entries[i])
    {
      DataLineSeqAt(files, i);
      DataLineReadsBack(files[i]);
    }
    FileTextReadsBack(HeaderLines(asctime), d, entries);
  }

  /**
   * The genome built from a written line: the stem is the name and, when
   * it holds no ',', the only family; the path is the sequence file; the
   * feature, primer and PrimerSearch files are absent.
   */
  lemma FileGenome(gd: GenomeData, path: string)
    requires ReadsBack(path) && path != "-" && Stem(path) != "-" && ',' !in Stem(path)
    requires BuiltFrom(gd, FileEntry(path))
    ensures gd.name == Stem(path) && gd.families == Some([Stem(path)])
    ensures gd.seqFilename == Some(path)
    ensures gd.ftFilename == None && gd.primerFilename == None && gd.primersearchFilename == None
  {
    SplitJoin([Stem(path)], ',');
  }

  /** Writing a config file and reading it back with `create_gd_from_config`. */
  method WriteAndReadBack(asctime: Text, files: seq<string>) returns (r: Result<seq<GenomeData>, PyError>)
    requires forall i :: 0 <= i < |files| ==> ReadsBack(files[i])
    ensures r.Ok? && |r.value| == |files|
    ensures forall i :: 0 <= i < |files| ==> BuiltFrom(r.value[i], FileEntry(files[i]))
  {
    var text := WriteConfigFile(asctime, files);
    ConfigRoundTrip(asctime, files);
    r := CreateGenomesFromConfig(Split(text, "\n"));
  }
}
