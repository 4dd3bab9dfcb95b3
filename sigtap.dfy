/** What the two drafts of the SIGTAP fixed-width decoder (main.py and q5.py) share:
    the column layout, the directory as a list of entries, which entries are layouts
    and which are data files, how a layout file's name becomes a table name, the
    layout registry (the later of two layouts with one table name wins), the slice
    that cuts one field out of a line, and the per-file dispatch that looks each data
    file's layout up by its stem. */
module Sigtap {
  import opened PyStr

  /** One row of a layout file: the column name (Coluna), its 1-based first
      position (Inicio) and its inclusive last position (Fim). */
  datatype Column = Column(name: string, start: int, end: int)

  /** A layout: its rows, in file order. */
  type Layout = seq<Column>

  /** A directory entry: its file name, its lines as Python's text-mode iteration
      yields them (each keeps its '\n'; the last one may lack it), and the rows
      that pd.read_csv yields when the entry is read as a layout. */
  datatype Entry = Entry(name: string, lines: seq<string>, csvRows: Layout)

  /** A directory listing, in the order the directory yields its entries. */
  type Listing = seq<Entry>

  /** Directory path to listing. */
  type FileSystem = map<string, Listing>

  /** The directory both drafts read by default. */
  const SigtapDir: string := "sigtap-simplificado"

  /** The marker that distinguishes a layout file's stem. */
  const LayoutMarker: string := "_layout"

  /** Path(dir).glob(...) over a directory that does not exist yields nothing. */
  function ListDir(fs: FileSystem, dir: string): Listing
  {
    if dir in fs then fs[dir] else []
  }

  // ---------------------------------------------------------------------------
  // File selection and table names
  // ---------------------------------------------------------------------------

  /** The glob '*layout.txt'. */
  predicate MatchesLayoutGlob(name: string)
  {
    EndsWith(name, "layout.txt")
  }

  /** A data file: matched by the glob '*.txt' and its stem does not end in '_layout'. */
  predicate IsDataName(name: string)
  {
    EndsWith(name, ".txt") && !EndsWith(Stem(name), LayoutMarker)
  }

  /** stem.replace('_layout', ''): the table a layout file describes. */
  function TableName(name: string): string
  {
    RemoveAll(Stem(name), LayoutMarker)
  }

  /** Key of a layout entry in the registry. */
  function LayoutKey(e: Entry): string
  {
    TableName(e.name)
  }

  /** Key under which a data entry is looked up and stored: its stem. */
  function DataKey(e: Entry): string
  {
    Stem(e.name)
  }

  /** The entries whose names satisfy p, in listing order. */
  function Select(l: Listing, p: string -> bool): (r: Listing)
    ensures |r| <= |l|
  {
    if l == [] then []
    else
      var last := l[|l| - 1];
      Select(l[..|l| - 1], p) + (if p(last.name) then [last] else [])
  }

  /** Select keeps exactly the entries whose names satisfy p. */
  lemma {:induction false} SelectMembers(l: Listing, p: string -> bool)
    ensures forall e :: e in Select(l, p) <==> e in l && p(e.name)
    decreases |l|
  {
    if l != [] {
      var init := l[..|l| - 1];
      SelectMembers(init, p);
      assert l == init + [l[|l| - 1]];
    }
  }

  function LayoutFiles(l: Listing): Listing
  {
    Select(l, MatchesLayoutGlob)
  }

  function DataFiles(l: Listing): Listing
  {
    Select(l, IsDataName)
  }

  lemma SelectSnoc(l: Listing, i: int, p: string -> bool)
    requires 0 <= i < |l|
    ensures Select(l[..i + 1], p) == Select(l[..i], p) + (if p(l[i].name) then [l[i]] else [])
  {
    assert l[..i + 1][..i] == l[..i];
  }

  lemma {:induction false} SelectAppend(a: Listing, b: Listing, p: string -> bool)
    ensures Select(a + b, p) == Select(a, p) + Select(b, p)
    decreases |b|
  {
    if b == [] {
      assert a + b == a;
    } else {
      var init := b[..|b| - 1];
      assert (a + b)[..|a + b| - 1] == a + init;
      SelectAppend(a, init, p);
    }
  }

  /** Selecting from a prefix gives a prefix of the selection. */
  lemma SelectPrefix(l: Listing, i: int, p: string -> bool)
    requires 0 <= i <= |l|
    ensures |Select(l[..i], p)| <= |Select(l, p)|
    ensures Select(l, p)[..|Select(l[..i], p)|] == Select(l[..i], p)
  {
    SelectAppend(l[..i], l[i..], p);
    assert l[..i] + l[i..] == l;
  }

  lemma SelectSingle(e: Entry, p: string -> bool)
    ensures Select([e], p) == if p(e.name) then [e] else []
  {
    assert [e][..0] == [];
  }

  /** A name ending in 'layout.txt' is skipped as data exactly when it ends in
      '_layout.txt'; a name such as 'xlayout.txt' is read both as a layout and as data. */
  lemma LayoutAlsoData(name: string)
    requires MatchesLayoutGlob(name)
    ensures !IsDataName(name) <==> EndsWith(name, "_layout.txt")
  {
    var x := name[..|name| - 4];
    assert name == x + ".txt";
    StemOfTxt(x);
    if EndsWith(name, "_layout.txt") {
      assert x[|x| - 7..] == name[|name| - 11..|name| - 4];
    }
  }

  lemma LayoutMarkerBorderless()
    ensures Borderless(LayoutMarker)
  {
    var p := LayoutMarker;
    forall k | 0 < k < |p|
      ensures p[..k] != p[|p| - k..]
    {
      assert p[..k][0] == '_';
      assert p[|p| - k..][0] == p[|p| - k] != '_';
    }
  }

  /** The table name of 'x_layout.txt' is x with every '_layout' removed: the trailing
      marker always goes, and so does any earlier one. */
  lemma TableNameOfLayoutFile(x: string)
    ensures TableName(x + "_layout.txt") == RemoveAll(x, LayoutMarker)
  {
    assert x + "_layout.txt" == (x + LayoutMarker) + ".txt";
    StemOfTxt(x + LayoutMarker);
    LayoutMarkerBorderless();
    RemoveAllTrailing(x, LayoutMarker);
  }

  /** Removing '_layout' from a + '_layout' + b, where neither a nor b holds an
      underscore, leaves a + b. */
  lemma MarkerBetween(a: string, b: string)
    requires forall i :: 0 <= i < |a| ==> a[i] != '_'
    requires forall i :: 0 <= i < |b| ==> b[i] != '_'
    ensures RemoveAll(a + LayoutMarker + b, LayoutMarker) == a + b
  {
    var m := LayoutMarker;
    assert m[0] == '_';
    assert RemoveAll(a + (m + b), m) == a + RemoveAll(m + b, m) by {
      RemoveAllNoStart(a, m + b, m);
    }
    assert RemoveAll(m + b, m) == RemoveAll(b, m) by {
      assert StartsWith(m + b, m) && (m + b)[|m|..] == b;
    }
    assert RemoveAll(b, m) == b by {
      RemoveAllNoStart(b, [], m);
      assert b + [] == b;
    }
    assert a + m + b == a + (m + b);
  }

  /** Every occurrence is removed, not only a trailing one: for instance the layout
      file 'a_layoutb_layout.txt' describes the table 'ab'. */
  lemma TableNameRemovesEveryMarker(a: string, b: string)
    requires forall i :: 0 <= i < |a| ==> a[i] != '_'
    requires forall i :: 0 <= i < |b| ==> b[i] != '_'
    ensures TableName(a + LayoutMarker + b + "_layout.txt") == a + b
  {
    TableNameOfLayoutFile(a + LayoutMarker + b);
    MarkerBetween(a, b);
  }

  // ---------------------------------------------------------------------------
  // Last wins: the registry and the table dictionary are both keyed assignments
  // ---------------------------------------------------------------------------

  /** Position of the last entry whose key is k, or -1 when there is none. */
  function LastIndex(es: Listing, key: Entry -> string, k: string): (i: int)
    ensures -1 <= i < |es|
    ensures i >= 0 ==> key(es[i]) == k
    ensures forall j :: i < j < |es| ==> key(es[j]) != k
  {
    if es == [] then -1
    else if key(es[|es| - 1]) == k then |es| - 1
    else LastIndex(es[..|es| - 1], key, k)
  }

  function KeysOf(es: Listing, key: Entry -> string): set<string>
  {
    set e | e in es :: key(e)
  }

  /** The layout registry as main.py builds it: the layout files are read in listing
      order and each one's rows are assigned under its table name, overwriting any
      earlier assignment to that name. */
  function Registry(files: Listing): map<string, Layout>
  {
    if files == [] then map[]
    else
      var f := files[|files| - 1];
      Registry(files[..|files| - 1])[LayoutKey(f) := f.csvRows]
  }

  lemma KeysOfSnoc(es: Listing, key: Entry -> string, e: Entry)
    ensures KeysOf(es + [e], key) == KeysOf(es, key) + {key(e)}
  {
    forall x | x in es + [e] ensures x in es || x == e {}
  }

  lemma LastIndexSnoc(es: Listing, key: Entry -> string, e: Entry, k: string)
    ensures LastIndex(es + [e], key, k) == if key(e) == k then |es| else LastIndex(es, key, k)
  {
    assert (es + [e])[..|es|] == es;
  }

  /** Last wins: the registry has one entry per table name, holding the rows of the
      last layout file with that name. */
  lemma {:induction false} RegistryLastWins(files: Listing)
    ensures Registry(files).Keys == KeysOf(files, LayoutKey)
    ensures forall k :: k in Registry(files) ==>
              LastIndex(files, LayoutKey, k) >= 0 &&
              Registry(files)[k] == files[LastIndex(files, LayoutKey, k)].csvRows
    decreases |files|
  {
    if files != [] {
      var init := files[..|files| - 1];
      var f := files[|files| - 1];
      var prior := Registry(init);
      var reg := Registry(files);
      assert files == init + [f];
      assert reg == prior[LayoutKey(f) := f.csvRows];
      RegistryLastWins(init);
      KeysOfSnoc(init, LayoutKey, f);
      forall k | k in reg
        ensures LastIndex(files, LayoutKey, k) >= 0
        ensures reg[k] == files[LastIndex(files, LayoutKey, k)].csvRows
      {
        LastIndexSnoc(init, LayoutKey, f, k);
        if k != LayoutKey(f) {
          assert reg[k] == prior[k];
          assert files[LastIndex(init, LayoutKey, k)] == init[LastIndex(init, LayoutKey, k)];
        }
      }
    }
  }

  lemma MapsAgree<K, V>(a: map<K, V>, b: map<K, V>)
    requires a.Keys == b.Keys
    requires forall k :: k in a ==> a[k] == b[k]
    ensures a == b
  {}

  // ---------------------------------------------------------------------------
  // Fields
  // ---------------------------------------------------------------------------

  /** line[Inicio-1:Fim]: the text of one column. A line too short for the column
      gives a shorter or empty field, never an error. */
  function Field(line: string, col: Column): (r: string)
    ensures 1 <= col.start <= col.end + 1 && col.end <= |line| ==>
              r == line[col.start - 1..col.end] && |r| == col.end - col.start + 1
    ensures 1 <= col.start <= |line| + 1 && |line| <= col.end ==> r == line[col.start - 1..]
    ensures 1 <= col.start && |line| < col.start ==> r == []
  {
    Slice(line, col.start - 1, col.end)
  }

  // ---------------------------------------------------------------------------
  // Per-file dispatch
  // ---------------------------------------------------------------------------

  /** Index of the first file whose stem has no layout, or -1 if every stem has one. */
  function FirstMissing(layouts: map<string, Layout>, files: Listing): (i: int)
    ensures -1 <= i < |files|
    ensures i >= 0 ==> DataKey(files[i]) !in layouts
    ensures forall j :: 0 <= j < |files| && (i < 0 || j < i) ==> DataKey(files[j]) in layouts
  {
    if files == [] then -1
    else
      var p := FirstMissing(layouts, files[..|files| - 1]);
      if p >= 0 then p
      else if DataKey(files[|files| - 1]) !in layouts then |files| - 1
      else -1
  }

  /** The intended loop of both drafts: for each data file in order, take the layout of
      its stem (KeyError when there is none, which ends the whole call) and store the
      decoded table under the stem. */
  function DecodeFiles<T>(layouts: map<string, Layout>, files: Listing,
                          decode: (Layout, seq<string>) -> T): Result<map<string, T>>
  {
    if files == [] then Ok(map[])
    else
      var prior := DecodeFiles(layouts, files[..|files| - 1], decode);
      var f := files[|files| - 1];
      if prior.Err? then prior
      else if DataKey(f) !in layouts then Err(KeyError(DataKey(f)))
      else Ok(prior.value[DataKey(f) := decode(layouts[DataKey(f)], f.lines)])
  }

  lemma DecodeFilesStep<T>(layouts: map<string, Layout>, files: Listing, i: int,
                           decode: (Layout, seq<string>) -> T)
    requires 0 <= i < |files|
    ensures var prior := DecodeFiles(layouts, files[..i], decode);
            var f := files[i];
            DecodeFiles(layouts, files[..i + 1], decode) ==
              if prior.Err? then prior
              else if DataKey(f) !in layouts then Err(KeyError(DataKey(f)))
              else Ok(prior.value[DataKey(f) := decode(layouts[DataKey(f)], f.lines)])
  {
    assert files[..i + 1][..i] == files[..i];
  }

  /** Once a file has raised, the files after it are never decoded. */
  lemma {:induction false} DecodeFilesStopsAtError<T>(layouts: map<string, Layout>, files: Listing, i: int,
                                                      decode: (Layout, seq<string>) -> T)
    requires 0 <= i <= |files| && DecodeFiles(layouts, files[..i], decode).Err?
    ensures DecodeFiles(layouts, files, decode) == DecodeFiles(layouts, files[..i], decode)
    decreases |files| - i
  {
    if i < |files| {
      DecodeFilesStep(layouts, files, i, decode);
      DecodeFilesStopsAtError(layouts, files, i + 1, decode);
    } else {
      assert files[..i] == files;
    }
  }

  /** Outcome of the per-file dispatch: it fails exactly when some data file has no
      layout, with the KeyError of the first such file; otherwise it has one table
      per stem, decoded from the last file with that stem. */
  lemma {:induction false} DecodeFilesOutcome<T>(layouts: map<string, Layout>, files: Listing,
                                                 decode: (Layout, seq<string>) -> T)
    ensures var r := DecodeFiles(layouts, files, decode);
            var m := FirstMissing(layouts, files);
            && (r.Err? <==> m >= 0)
            && (r.Err? ==> r.error == KeyError(DataKey(files[m])))
            && (r.Ok? ==> r.value.Keys == KeysOf(files, DataKey))
            && (r.Ok? ==> forall k :: k in r.value ==>
                  LastIndex(files, DataKey, k) >= 0 &&
                  r.value[k] == decode(layouts[k], files[LastIndex(files, DataKey, k)].lines))
    decreases |files|
  {
    if files != [] {
      var init := files[..|files| - 1];
      var f := files[|files| - 1];
      assert files == init + [f];
      DecodeFilesOutcome(layouts, init, decode);
      var r := DecodeFiles(layouts, files, decode);
      var prior := DecodeFiles(layouts, init, decode);
      if r.Ok? {
        KeysOfSnoc(init, DataKey, f);
        forall k | k in r.value
          ensures LastIndex(files, DataKey, k) >= 0
          ensures r.value[k] == decode(layouts[k], files[LastIndex(files, DataKey, k)].lines)
        {
          LastIndexSnoc(init, DataKey, f, k);
        }
      }
    }
  }

  /** Among the entries of a listing, an entry that passes the file test p extends the
      decoded prefix by one file. */
  lemma DecodeDataStep<T>(layouts: map<string, Layout>, l: Listing, i: int, p: string -> bool,
                          decode: (Layout, seq<string>) -> T)
    requires 0 <= i < |l| && p(l[i].name)
    ensures var prior := DecodeFiles(layouts, Select(l[..i], p), decode);
            var f := l[i];
            DecodeFiles(layouts, Select(l[..i + 1], p), decode) ==
              if prior.Err? then prior
              else if Stem(f.name) !in layouts then Err(KeyError(Stem(f.name)))
              else Ok(prior.value[Stem(f.name) := decode(layouts[Stem(f.name)], f.lines)])
  {
    var done := Select(l[..i], p);
    var upto := done + [l[i]];
    SelectSnoc(l, i, p);
    assert upto[..|done|] == done;
    assert upto[..|done| + 1] == upto;
    DecodeFilesStep(layouts, upto, |done|, decode);
  }

  /** Once the selected files of a prefix of the entries fail to decode, all of them fail
      the same way. */
  lemma DecodeDataStopsAtError<T>(layouts: map<string, Layout>, l: Listing, i: int, p: string -> bool,
                                  decode: (Layout, seq<string>) -> T)
    requires 0 <= i <= |l| && DecodeFiles(layouts, Select(l[..i], p), decode).Err?
    ensures DecodeFiles(layouts, Select(l, p), decode) == DecodeFiles(layouts, Select(l[..i], p), decode)
  {
    SelectPrefix(l, i, p);
    DecodeFilesStopsAtError(layouts, Select(l, p), |Select(l[..i], p)|, decode);
  }
}
