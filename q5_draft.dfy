/** The second draft of the SIGTAP decoder (q5.py). The layout registry is a dict
    comprehension; the data files are read with pandas' fixed-width reader, whose
    column specifications are the pairs (Inicio-1, Fim), and every value is then
    stripped of surrounding whitespace. As written, the loop calls the directory
    Path itself instead of its glob method, so the call fails before any file is
    decoded. Both behaviours share the loop DecodeDir: BuildTables runs it over the
    glob, BuildTablesAsWritten over the call on the Path. */
module Q5Draft {
  import opened PyStr
  import opened Sigtap
  import MainDraft

  /** A decoded file: the column names of its layout, and one record per line
      holding one stripped value per column. */
  datatype Table = Table(columns: seq<string>, rows: seq<seq<string>>)

  /** sigtap_dir or Path('sigtap-simplificado'). A Path object is always truthy, so
      only a missing argument (None) selects the default directory. */
  function ResolveDir(arg: Option<string>): (dir: string)
    ensures arg.None? ==> dir == SigtapDir
    ensures arg.Some? ==> dir == arg.value
  {
    match arg
    case None => SigtapDir
    case Some(path) => path
  }

  /** gera_df_layouts: the comprehension {stem.replace('_layout', ''): rows} over the
      '*layout.txt' entries, where a later file with the same table name overrides an
      earlier one. */
  function Layouts(fs: FileSystem, dir: string): map<string, Layout>
  {
    var files := LayoutFiles(ListDir(fs, dir));
    map k | k in KeysOf(files, LayoutKey) ::
      var i := LastIndex(files, LayoutKey, k);
      if i >= 0 then files[i].csvRows else []
  }

  /** The comprehension equals the registry main.py builds with its loop. */
  lemma LayoutsAreRegistry(fs: FileSystem, dir: string)
    ensures Layouts(fs, dir) == Registry(LayoutFiles(ListDir(fs, dir)))
  {
    var files := LayoutFiles(ListDir(fs, dir));
    RegistryLastWins(files);
    MapsAgree(Layouts(fs, dir), Registry(files));
  }

  /** list(zip(df_layout['Inicio'] - 1, df_layout['Fim'])): one half-open range per
      layout row, in row order, aligned with the column names. */
  function ColSpecs(layout: Layout): (specs: seq<(int, int)>)
    ensures |specs| == |layout|
    ensures forall j :: 0 <= j < |layout| ==> specs[j] == (layout[j].start - 1, layout[j].end)
  {
    if layout == [] then []
    else
      var last := layout[|layout| - 1];
      ColSpecs(layout[..|layout| - 1]) + [(last.start - 1, last.end)]
  }

  /** One line as the fixed-width reader cuts it with those column specifications,
      followed by the strip applied to every column. */
  function ReadRecord(specs: seq<(int, int)>, line: string): (r: seq<string>)
    ensures |r| == |specs|
  {
    Map((spec: (int, int)) => Strip(Slice(line, spec.0, spec.1)), specs)
  }

  /** The records of all lines, in line order. */
  function Records(specs: seq<(int, int)>, lines: seq<string>): (rows: seq<seq<string>>)
    ensures |rows| == |lines|
  {
    Map((line: string) => ReadRecord(specs, line), lines)
  }

  /** The DataFrame of one data file, after stripping. */
  function TableOf(layout: Layout, lines: seq<string>): Table
  {
    Table(MainDraft.Names(layout), Records(ColSpecs(layout), lines))
  }

  // ---------------------------------------------------------------------------
  // Properties of one decoded file
  // ---------------------------------------------------------------------------

  /** One record per line, one value per layout row; the j-th value of record i is
      the slice line[Inicio-1:Fim] of line i, stripped, under the j-th column name. */
  lemma TableShape(layout: Layout, lines: seq<string>)
    ensures var t := TableOf(layout, lines);
            |t.columns| == |layout| && |t.rows| == |lines| &&
            forall i, j :: 0 <= i < |lines| && 0 <= j < |layout| ==>
              |t.rows[i]| == |layout| && t.columns[j] == layout[j].name &&
              t.rows[i][j] == Strip(Field(lines[i], layout[j])) && IsStripped(t.rows[i][j])
  {
    var specs := ColSpecs(layout);
    MapAt((line: string) => ReadRecord(specs, line), lines);
    forall i | 0 <= i < |lines|
      ensures forall j :: 0 <= j < |layout| ==>
                ReadRecord(specs, lines[i])[j] == Strip(Field(lines[i], layout[j]))
    {
      var line := lines[i];
      MapAt((spec: (int, int)) => Strip(Slice(line, spec.0, spec.1)), specs);
    }
    forall i, j | 0 <= i < |lines| && 0 <= j < |layout| {
      StripShape(Field(lines[i], layout[j]));
    }
  }

  /** The two drafts agree up to trimming: with distinct column names, each value of
      q5.py is the stripped value main.py stores at the same line and column. */
  lemma DraftsAgree(layout: Layout, lines: seq<string>)
    requires MainDraft.NoDuplicates(MainDraft.Names(layout))
    ensures var raw := MainDraft.RawTableOf(layout, lines);
            var t := TableOf(layout, lines);
            forall i, j :: 0 <= i < |lines| && 0 <= j < |layout| ==>
              layout[j].name in raw.cells && i < |raw.cells[layout[j].name]| &&
              i < |t.rows| && j < |t.rows[i]| &&
              t.rows[i][j] == Strip(raw.cells[layout[j].name][i])
  {
    var raw := MainDraft.RawTableOf(layout, lines);
    var t := TableOf(layout, lines);
    MainDraft.DecodedShape(layout, lines);
    TableShape(layout, lines);
    forall i, j | 0 <= i < |lines| && 0 <= j < |layout|
      ensures layout[j].name in raw.cells && i < |raw.cells[layout[j].name]|
      ensures i < |t.rows| && j < |t.rows[i]|
      ensures t.rows[i][j] == Strip(raw.cells[layout[j].name][i])
    {
      var f := Field(lines[i], layout[j]);
      assert raw.columns[j] == layout[j].name;
      assert raw.cells[raw.columns[j]][i] == f;
      assert t.rows[i][j] == Strip(f);
    }
  }

  /** Whether a line still carries its '\n' makes no difference once values are
      stripped, as long as the column's positions are not negative (a negative Fim
      counts from the end of the line, and then the newline shifts the cut). */
  lemma NewlineIrrelevant(text: string, col: Column)
    requires 1 <= col.start && 0 <= col.end
    ensures Strip(Field(text + "\n", col)) == Strip(Field(text, col))
  {
    var line := text + "\n";
    var lo := col.start - 1;
    var a := Field(line, col);
    var b := Field(text, col);
    if col.end <= |text| {
      if lo <= col.end {
        assert a == line[lo..col.end] == text[lo..col.end] == b;
      } else {
        assert a == [] == b;
      }
    } else if lo <= |text| {
      assert a == line[lo..] == text[lo..] + ['\n'];
      assert b == text[lo..];
      StripAppendSpace(b, '\n');
    } else {
      assert a == [] == b;
    }
  }

  /** The layout {Coluna: [id, nome], Inicio: [1, 3], Fim: [2, 6]} applied to a line
      made of two characters and at most four more: a full line such as '01ABCD' reads
      as ['01', 'ABCD'], and a short one such as '01AB' as ['01', 'AB'], the missing
      tail of the last column being cut off rather than rejected. */
  lemma TwoColumnRecord(a: string, b: string)
    requires |a| == 2 && |b| <= 4
    ensures ReadRecord(ColSpecs([Column("id", 1, 2), Column("nome", 3, 6)]), a + b) == [Strip(a), Strip(b)]
  {
    var line := a + b;
    var specs := ColSpecs([Column("id", 1, 2), Column("nome", 3, 6)]);
    assert specs[0] == (0, 2) && specs[1] == (2, 6);
    assert Slice(line, 0, 2) == line[0..2] == a;
    if |b| == 4 {
      assert Slice(line, 2, 6) == line[2..6] == b;
    } else {
      assert Slice(line, 2, 6) == line[2..] == b;
    }
  }

  // ---------------------------------------------------------------------------
  // The loop over the directory
  // ---------------------------------------------------------------------------

  /** The glob '*.txt'. */
  predicate MatchesTxtGlob(name: string)
  {
    EndsWith(name, ".txt")
  }

  /** The test of the loop: an entry is decoded unless its stem ends in '_layout'. */
  predicate NotLayoutStem(name: string)
  {
    !EndsWith(Stem(name), LayoutMarker)
  }

  /** Skipping the '_layout' stems among the '*.txt' entries leaves the data files. */
  lemma {:induction false} DataAmongTxt(l: Listing)
    ensures Select(Select(l, MatchesTxtGlob), NotLayoutStem) == DataFiles(l)
    decreases |l|
  {
    if l != [] {
      var init := l[..|l| - 1];
      var last := l[|l| - 1];
      var tail := if MatchesTxtGlob(last.name) then [last] else [];
      var kept := if IsDataName(last.name) then [last] else [];
      assert Select(l, MatchesTxtGlob) == Select(init, MatchesTxtGlob) + tail;
      assert DataFiles(l) == DataFiles(init) + kept;
      DataAmongTxt(init);
      SelectAppend(Select(init, MatchesTxtGlob), tail, NotLayoutStem);
      if MatchesTxtGlob(last.name) {
        SelectSingle(last, NotLayoutStem);
      } else {
        assert Select(tail, NotLayoutStem) == [] == kept;
      }
    }
  }

  /** sigtap_dir.glob('*.txt'): the '*.txt' entries of the directory, in listing order. */
  function GlobTxt(fs: FileSystem): string -> Result<Listing>
  {
    dir => Ok(Select(ListDir(fs, dir), MatchesTxtGlob))
  }

  /** sigtap_dir('*.txt'): a Path object is not callable. */
  function CallPath(dir: string): Result<Listing>
  {
    Err(TypeError("'PosixPath' object is not callable"))
  }

  /** The body of gera_df_tabelas once the directory is known, with the expression that
      lists its '*.txt' entries as a parameter: the layouts are read first, then the
      listing is evaluated (its exception ends the call), then every entry whose stem
      does not end in '_layout' has its layout looked up by stem (KeyError when
      missing), is read with the column specifications, stripped and stored under
      its stem. */
  method DecodeDir(fs: FileSystem, dir: string, listTxt: string -> Result<Listing>)
    returns (r: Result<map<string, Table>>)
    ensures listTxt(dir).Err? ==> r == Err(listTxt(dir).error)
    ensures listTxt(dir).Ok? ==>
              r == DecodeFiles(Layouts(fs, dir), Select(listTxt(dir).value, NotLayoutStem), TableOf)
  {
    var layouts := Layouts(fs, dir);
    var entries := listTxt(dir);
    if entries.Err? {
      return Err(entries.error);
    }
    var txt := entries.value;
    var tables: map<string, Table> := map[];
    var i := 0;
    while i < |txt|
      invariant 0 <= i <= |txt|
      invariant DecodeFiles(layouts, Select(txt[..i], NotLayoutStem), TableOf) == Ok(tables)
    {
      var f := txt[i];
      if EndsWith(Stem(f.name), LayoutMarker) {
        assert Select(txt[..i + 1], NotLayoutStem) == Select(txt[..i], NotLayoutStem) by {
          SelectSnoc(txt, i, NotLayoutStem);
        }
        i := i + 1;
        continue;
      }
      var name := Stem(f.name);
      DecodeDataStep(layouts, txt, i, NotLayoutStem, TableOf);
      if name !in layouts {
        r := Err(KeyError(name));
        DecodeDataStopsAtError(layouts, txt, i + 1, NotLayoutStem, TableOf);
        return;
      }
      tables := tables[name := TableOf(layouts[name], f.lines)];
      i := i + 1;
    }
    assert txt[..i] == txt;
    r := Ok(tables);
  }

  /** gera_df_tabelas as intended: the loop runs over sigtap_dir.glob('*.txt'), so it
      decodes exactly the data files of the directory. */
  method BuildTables(fs: FileSystem, arg: Option<string>) returns (r: Result<map<string, Table>>)
    ensures var dir := ResolveDir(arg);
            r == DecodeFiles(Layouts(fs, dir), DataFiles(ListDir(fs, dir)), TableOf)
  {
    var dir := ResolveDir(arg);
    r := DecodeDir(fs, dir, GlobTxt(fs));
    DataAmongTxt(ListDir(fs, dir));
  }

  /** The outcome of gera_df_tabelas as written, whatever the directory holds. */
  function TablesAsWritten(fs: FileSystem, arg: Option<string>): (r: Result<map<string, Table>>)
    ensures r.Err? && r.error.TypeError?
  {
    Err(TypeError("'PosixPath' object is not callable"))
  }

  /** gera_df_tabelas as written: the same body, but the loop's iterable is
      sigtap_dir('*.txt'), so the call raises TypeError after reading the layouts and
      before any file is decoded. */
  method BuildTablesAsWritten(fs: FileSystem, arg: Option<string>) returns (r: Result<map<string, Table>>)
    ensures r == TablesAsWritten(fs, arg)
  {
    var dir := ResolveDir(arg);
    r := DecodeDir(fs, dir, CallPath);
  }

  /** The defect: whenever every data file has its layout, the intended decoder
      succeeds and the code as written fails. */
  lemma AsWrittenFailsWhereIntendedSucceeds(fs: FileSystem, arg: Option<string>)
    requires var listing := ListDir(fs, ResolveDir(arg));
             forall i :: 0 <= i < |DataFiles(listing)| ==>
               DataKey(DataFiles(listing)[i]) in Registry(LayoutFiles(listing))
    ensures var dir := ResolveDir(arg);
            DecodeFiles(Layouts(fs, dir), DataFiles(ListDir(fs, dir)), TableOf).Ok?
    ensures TablesAsWritten(fs, arg).Err?
  {
    var dir := ResolveDir(arg);
    LayoutsAreRegistry(fs, dir);
    DecodeFilesOutcome(Layouts(fs, dir), DataFiles(ListDir(fs, dir)), TableOf);
  }
}
