/** The first draft of the SIGTAP decoder (main.py). It builds the layout registry
    key by key in a loop, then for every data file cuts each line into fields by
    hand, appending each field, untrimmed, to the list of its column in a dictionary
    keyed by column name. As written, the loop body reads the table name before
    assigning it, so the whole call fails on its first data file. BuildTables is the
    intended behaviour and BuildTablesAsWritten the code as it stands. */
module MainDraft {
  import opened PyStr
  import opened Sigtap

  /** The dictionary of per-column lists (dict_aux) for one data file: the column
      names in the dictionary's key order, and the list held under each name. */
  datatype RawTable = RawTable(columns: seq<string>, cells: map<string, seq<string>>)

  predicate NoDuplicates(s: seq<string>)
  {
    forall i, j :: 0 <= i < j < |s| ==> s[i] != s[j]
  }

  /** list(df_layout['Coluna']): the layout's column names in row order. */
  function Names(layout: Layout): (r: seq<string>)
    ensures |r| == |layout|
    ensures forall i :: 0 <= i < |layout| ==> r[i] == layout[i].name
  {
    if layout == [] then []
    else Names(layout[..|layout| - 1]) + [layout[|layout| - 1].name]
  }

  /** The keys of {c: [] for c in lista_colunas}: every name once, at the position of
      its first row; when the names are already distinct this is the name list itself. */
  function DistinctNames(layout: Layout): (r: seq<string>)
    ensures NoDuplicates(r)
    ensures forall i :: 0 <= i < |layout| ==> layout[i].name in r
    ensures forall n :: n in r ==> n in Names(layout)
    ensures NoDuplicates(Names(layout)) ==> r == Names(layout)
  {
    if layout == [] then []
    else
      var init := layout[..|layout| - 1];
      var prior := DistinctNames(init);
      var n := layout[|layout| - 1].name;
      assert Names(layout) == Names(init) + [n];
      if n in prior then prior else prior + [n]
  }

  /** What one line appends to the list of column n: the field of every row named n,
      in row order. */
  function RowValues(layout: Layout, line: string, n: string): seq<string>
  {
    if layout == [] then []
    else
      var row := layout[|layout| - 1];
      RowValues(layout[..|layout| - 1], line, n) + (if row.name == n then [Field(line, row)] else [])
  }

  /** A line contributes one value to column n for each row named n. */
  lemma {:induction false} RowValuesLength(layout: Layout, line: string, n: string)
    ensures |RowValues(layout, line, n)| == multiset(Names(layout))[n]
    decreases |layout|
  {
    if layout != [] {
      var init := layout[..|layout| - 1];
      assert Names(layout) == Names(init) + [layout[|layout| - 1].name];
      RowValuesLength(init, line, n);
    }
  }

  lemma RowValuesSnoc(layout: Layout, j: int, line: string, n: string)
    requires 0 <= j < |layout|
    ensures RowValues(layout[..j + 1], line, n) ==
            RowValues(layout[..j], line, n) + (if layout[j].name == n then [Field(line, layout[j])] else [])
  {
    assert layout[..j + 1][..j] == layout[..j];
  }

  /** The list under column n after the given lines have been read. */
  function ColumnValues(layout: Layout, lines: seq<string>, n: string): seq<string>
  {
    if lines == [] then []
    else ColumnValues(layout, lines[..|lines| - 1], n) + RowValues(layout, lines[|lines| - 1], n)
  }

  lemma ColumnValuesSnoc(layout: Layout, lines: seq<string>, i: int, n: string)
    requires 0 <= i < |lines|
    ensures ColumnValues(layout, lines[..i + 1], n) ==
            ColumnValues(layout, lines[..i], n) + RowValues(layout, lines[i], n)
  {
    assert lines[..i + 1][..i] == lines[..i];
  }

  /** dict_aux once every line of the file has been read. */
  function RawTableOf(layout: Layout, lines: seq<string>): RawTable
  {
    var columns := DistinctNames(layout);
    RawTable(columns, map n | n in columns :: ColumnValues(layout, lines, n))
  }

  // ---------------------------------------------------------------------------
  // Properties of the decoded dictionary
  // ---------------------------------------------------------------------------

  /** Every line appends one value per row of the column, so a column named by k rows
      holds k values per line: with a repeated name, that column's list is longer. */
  lemma {:induction false} ColumnLength(layout: Layout, lines: seq<string>, n: string)
    ensures |ColumnValues(layout, lines, n)| == |lines| * multiset(Names(layout))[n]
    decreases |lines|
  {
    if lines != [] {
      ColumnLength(layout, lines[..|lines| - 1], n);
      RowValuesLength(layout, lines[|lines| - 1], n);
      var k := multiset(Names(layout))[n];
      assert (|lines| - 1) * k + k == |lines| * k;
    }
  }

  lemma {:induction false} RowValuesOfUnique(layout: Layout, line: string, j: int)
    requires NoDuplicates(Names(layout)) && 0 <= j < |layout|
    ensures RowValues(layout, line, layout[j].name) == [Field(line, layout[j])]
    decreases |layout|
  {
    var init := layout[..|layout| - 1];
    var n := layout[j].name;
    assert Names(layout) == Names(init) + [layout[|layout| - 1].name];
    if j == |layout| - 1 {
      assert forall i :: 0 <= i < |init| ==> Names(init)[i] != n by {
        forall i | 0 <= i < |init| ensures Names(init)[i] != n {
          assert Names(layout)[i] == Names(init)[i];
        }
      }
      assert n !in multiset(Names(init));
      RowValuesLength(init, line, n);
    } else {
      assert layout[|layout| - 1].name != n by {
        assert Names(layout)[j] == n;
      }
      RowValuesOfUnique(init, line, j);
    }
  }

  /** With distinct column names, after k lines every column holds exactly k values,
      the i-th being the untrimmed slice line[Inicio-1:Fim] of the i-th line. */
  lemma {:induction false} DistinctColumns(layout: Layout, lines: seq<string>, j: int)
    requires NoDuplicates(Names(layout)) && 0 <= j < |layout|
    ensures var col := ColumnValues(layout, lines, layout[j].name);
            |col| == |lines| &&
            forall i :: 0 <= i < |lines| ==> col[i] == Field(lines[i], layout[j])
    decreases |lines|
  {
    if lines != [] {
      var init := lines[..|lines| - 1];
      DistinctColumns(layout, init, j);
      RowValuesOfUnique(layout, lines[|lines| - 1], j);
    }
  }

  /** The decoded dictionary's keys follow the layout's rows, each name once. With
      distinct names, the i-th value of the j-th column is the j-th field of line i. */
  lemma DecodedShape(layout: Layout, lines: seq<string>)
    requires NoDuplicates(Names(layout))
    ensures var t := RawTableOf(layout, lines);
            t.columns == Names(layout) &&
            forall i, j :: 0 <= i < |lines| && 0 <= j < |layout| ==>
              t.columns[j] in t.cells && |t.cells[t.columns[j]]| == |lines| &&
              t.cells[t.columns[j]][i] == Field(lines[i], layout[j])
  {
    forall j | 0 <= j < |layout| {
      DistinctColumns(layout, lines, j);
    }
  }

  /** Values are not trimmed: a column that reaches past the text of a line keeps the
      line's '\n'. */
  lemma NewlineKept(text: string, col: Column)
    requires 1 <= col.start <= |text| + 1 && |text| < col.end
    ensures Field(text + "\n", col) == text[col.start - 1..] + "\n"
  {
    var line := text + "\n";
    assert line[col.start - 1..] == text[col.start - 1..] + "\n";
  }

  // ---------------------------------------------------------------------------
  // The loops of main.py
  // ---------------------------------------------------------------------------

  /** gera_df_layouts: reads every '*layout.txt' entry in listing order and assigns its
      rows under its table name, so it yields the registry (later files win). */
  method BuildLayouts(listing: Listing) returns (layouts: map<string, Layout>)
    ensures layouts == Registry(LayoutFiles(listing))
  {
    var files := LayoutFiles(listing);
    layouts := map[];
    var i := 0;
    while i < |files|
      invariant 0 <= i <= |files|
      invariant layouts == Registry(files[..i])
    {
      var f := files[i];
      assert files[..i + 1][..i] == files[..i];
      layouts := layouts[TableName(f.name) := f.csvRows];
      i := i + 1;
    }
    assert files[..i] == files;
  }

  /** The inner loop of gera_df_tabelas: for each layout row in order, append
      line[Inicio-1:Fim] to the list of that row's column. Each list grows by the
      line's fields for that column, and no key is added or lost. */
  method AppendLine(before: map<string, seq<string>>, layout: Layout, line: string)
    returns (cells: map<string, seq<string>>)
    requires forall j :: 0 <= j < |layout| ==> layout[j].name in before
    ensures cells.Keys == before.Keys
    ensures forall n :: n in cells ==> cells[n] == before[n] + RowValues(layout, line, n)
  {
    cells := before;
    forall n | n in cells
      ensures cells[n] == before[n] + RowValues(layout[..0], line, n)
    {
      assert layout[..0] == [];
    }
    var j := 0;
    while j < |layout|
      invariant 0 <= j <= |layout|
      invariant cells.Keys == before.Keys
      invariant forall n :: n in cells ==> cells[n] == before[n] + RowValues(layout[..j], line, n)
    {
      var row := layout[j];
      cells := cells[row.name := cells[row.name] + [Field(line, row)]];
      forall n | n in cells
        ensures cells[n] == before[n] + RowValues(layout[..j + 1], line, n)
      {
        RowValuesSnoc(layout, j, line, n);
      }
      j := j + 1;
    }
    assert layout[..j] == layout;
  }

  /** The nested loops over one data file: dict_aux starts with an empty list per
      column name and every line is appended in file order. */
  method DecodeRaw(layout: Layout, lines: seq<string>) returns (t: RawTable)
    ensures t == RawTableOf(layout, lines)
  {
    var columns := DistinctNames(layout);
    var cells: map<string, seq<string>> := map n | n in columns :: [];
    forall n | n in cells
      ensures cells[n] == ColumnValues(layout, lines[..0], n)
    {
      assert lines[..0] == [];
    }
    var i := 0;
    while i < |lines|
      invariant 0 <= i <= |lines|
      invariant cells.Keys == set n | n in columns
      invariant forall n :: n in cells ==> cells[n] == ColumnValues(layout, lines[..i], n)
    {
      cells := AppendLine(cells, layout, lines[i]);
      forall n | n in cells
        ensures cells[n] == ColumnValues(layout, lines[..i + 1], n)
      {
        ColumnValuesSnoc(layout, lines, i, n);
      }
      i := i + 1;
    }
    assert lines[..i] == lines;
    t := RawTable(columns, cells);
    MapsAgree(cells, RawTableOf(layout, lines).cells);
  }

  /** The per-file dispatch of main.py, with the table name taken from the file's own
      stem: a data file without a layout raises KeyError. */
  function Decode(layouts: map<string, Layout>, files: Listing): Result<map<string, RawTable>>
  {
    DecodeFiles(layouts, files, RawTableOf)
  }

  /** gera_df_tabelas as intended: the layout of each data file of
      'sigtap-simplificado' is looked up by the file's stem. */
  method BuildTables(fs: FileSystem) returns (r: Result<map<string, RawTable>>)
    ensures r == Decode(Registry(LayoutFiles(ListDir(fs, SigtapDir))), DataFiles(ListDir(fs, SigtapDir)))
  {
    var listing := ListDir(fs, SigtapDir);
    var files := DataFiles(listing);
    var layouts := BuildLayouts(listing);
    var tables: map<string, RawTable> := map[];
    var i := 0;
    while i < |files|
      invariant 0 <= i <= |files|
      invariant Decode(layouts, files[..i]) == Ok(tables)
    {
      var f := files[i];
      var name := Stem(f.name);
      DecodeFilesStep(layouts, files, i, RawTableOf);
      if name !in layouts {
        r := Err(KeyError(name));
        DecodeFilesStopsAtError(layouts, files, i + 1, RawTableOf);
        return;
      }
      var t := DecodeRaw(layouts[name], f.lines);
      tables := tables[name := t];
      i := i + 1;
    }
    assert files[..i] == files;
    r := Ok(tables);
  }

  /** The binding of nome_tb_rl after the loop has run over the given files, starting
      from `bound`: each iteration binds it to the stem of its file. */
  function BindingAfter(files: Listing, bound: Option<string>): Option<string>
  {
    if files == [] then bound else Some(Stem(files[|files| - 1].name))
  }

  /** The loop of gera_df_tabelas as written, from a given binding of nome_tb_rl: each
      iteration first reads nome_tb_rl (UnboundLocalError while it is unbound) and looks
      its layout up (KeyError when missing), then binds nome_tb_rl to the file's stem,
      and stores the file, decoded with the layout found, under that stem. */
  function LoopAsWritten(layouts: map<string, Layout>, files: Listing, bound: Option<string>)
    : Result<map<string, RawTable>>
  {
    if files == [] then Ok(map[])
    else
      var init := files[..|files| - 1];
      var f := files[|files| - 1];
      var prior := LoopAsWritten(layouts, init, bound);
      var current := BindingAfter(init, bound);
      if prior.Err? then prior
      else if current.None? then Err(UnboundLocalError("nome_tb_rl"))
      else if current.value !in layouts then Err(KeyError(current.value))
      else Ok(prior.value[Stem(f.name) := RawTableOf(layouts[current.value], f.lines)])
  }

  lemma LoopAsWrittenStep(layouts: map<string, Layout>, files: Listing, i: int, bound: Option<string>)
    requires 0 <= i < |files|
    ensures var prior := LoopAsWritten(layouts, files[..i], bound);
            var current := BindingAfter(files[..i], bound);
            var f := files[i];
            LoopAsWritten(layouts, files[..i + 1], bound) ==
              if prior.Err? then prior
              else if current.None? then Err(UnboundLocalError("nome_tb_rl"))
              else if current.value !in layouts then Err(KeyError(current.value))
              else Ok(prior.value[Stem(f.name) := RawTableOf(layouts[current.value], f.lines)])
    ensures BindingAfter(files[..i + 1], bound) == Some(Stem(files[i].name))
  {
    assert files[..i + 1][..i] == files[..i];
  }

  lemma {:induction false} LoopAsWrittenStopsAtError(layouts: map<string, Layout>, files: Listing, i: int,
                                                     bound: Option<string>)
    requires 0 <= i <= |files| && LoopAsWritten(layouts, files[..i], bound).Err?
    ensures LoopAsWritten(layouts, files, bound) == LoopAsWritten(layouts, files[..i], bound)
    decreases |files| - i
  {
    if i < |files| {
      LoopAsWrittenStep(layouts, files, i, bound);
      LoopAsWrittenStopsAtError(layouts, files, i + 1, bound);
    } else {
      assert files[..i] == files;
    }
  }

  /** The outer loop of gera_df_tabelas with its statements in the order written, from
      a given binding of nome_tb_rl. */
  method DecodeAsWritten(layouts: map<string, Layout>, files: Listing, bound: Option<string>)
    returns (r: Result<map<string, RawTable>>)
    ensures r == LoopAsWritten(layouts, files, bound)
  {
    var nomeTbRl := bound;
    var tables: map<string, RawTable> := map[];
    var i := 0;
    while i < |files|
      invariant 0 <= i <= |files|
      invariant LoopAsWritten(layouts, files[..i], bound) == Ok(tables)
      invariant nomeTbRl == BindingAfter(files[..i], bound)
    {
      var f := files[i];
      LoopAsWrittenStep(layouts, files, i, bound);
      if nomeTbRl.None? {
        r := Err(UnboundLocalError("nome_tb_rl"));
        LoopAsWrittenStopsAtError(layouts, files, i + 1, bound);
        return;
      }
      if nomeTbRl.value !in layouts {
        r := Err(KeyError(nomeTbRl.value));
        LoopAsWrittenStopsAtError(layouts, files, i + 1, bound);
        return;
      }
      var layout := layouts[nomeTbRl.value];
      nomeTbRl := Some(Stem(f.name));
      var t := DecodeRaw(layout, f.lines);
      tables := tables[nomeTbRl.value := t];
      i := i + 1;
    }
    assert files[..i] == files;
    r := Ok(tables);
  }

  /** nome_tb_rl is a local of gera_df_tabelas, unbound when the loop starts: the first
      file raises UnboundLocalError, and with no file the loop never runs. */
  lemma {:induction false} UnboundOnFirstFile(layouts: map<string, Layout>, files: Listing)
    ensures files == [] ==> LoopAsWritten(layouts, files, None) == Ok(map[])
    ensures files != [] ==> LoopAsWritten(layouts, files, None) == Err(UnboundLocalError("nome_tb_rl"))
    decreases |files|
  {
    if files != [] {
      UnboundOnFirstFile(layouts, files[..|files| - 1]);
    }
  }

  /** The outcome of gera_df_tabelas as written: UnboundLocalError exactly when there is
      a data file, and an empty dictionary otherwise. */
  function TablesAsWritten(fs: FileSystem): (r: Result<map<string, RawTable>>)
    ensures r.Ok? <==> DataFiles(ListDir(fs, SigtapDir)) == []
    ensures r.Ok? ==> r.value == map[]
    ensures r.Err? ==> r.error == UnboundLocalError("nome_tb_rl")
  {
    if DataFiles(ListDir(fs, SigtapDir)) == [] then Ok(map[])
    else Err(UnboundLocalError("nome_tb_rl"))
  }

  /** gera_df_tabelas as written: the data files and the layouts of
      'sigtap-simplificado' are read, then the loop runs with nome_tb_rl unbound. */
  method BuildTablesAsWritten(fs: FileSystem) returns (r: Result<map<string, RawTable>>)
    ensures r == TablesAsWritten(fs)
  {
    var listing := ListDir(fs, SigtapDir);
    var files := DataFiles(listing);
    var layouts := BuildLayouts(listing);
    r := DecodeAsWritten(layouts, files, None);
    UnboundOnFirstFile(layouts, files);
  }

  /** The defect: whenever there is a data file and every data file has its layout,
      the intended decoder succeeds and the code as written fails. */
  lemma AsWrittenFailsWhereIntendedSucceeds(fs: FileSystem)
    requires var listing := ListDir(fs, SigtapDir);
             DataFiles(listing) != [] &&
             forall i :: 0 <= i < |DataFiles(listing)| ==>
               DataKey(DataFiles(listing)[i]) in Registry(LayoutFiles(listing))
    ensures Decode(Registry(LayoutFiles(ListDir(fs, SigtapDir))), DataFiles(ListDir(fs, SigtapDir))).Ok?
    ensures TablesAsWritten(fs).Err?
  {
    var listing := ListDir(fs, SigtapDir);
    DecodeFilesOutcome(Registry(LayoutFiles(listing)), DataFiles(listing), RawTableOf);
  }
}
