# Fixed-width SIGTAP decoding, prescription check and attendance counts

A Dafny model of three pieces of sequential logic from a small collection of Python
scripts:

- **The SIGTAP decoder**, in two drafts. Each draft reads a directory of layout files
  (`*layout.txt`, CSV rows `Coluna`, `Inicio`, `Fim`) and fixed-width data files
  (`*.txt`). It cuts every line of a data file into fields with the Python slice
  `line[Inicio-1:Fim]`.
  - `main.py` builds the layout registry in a loop. It appends every untrimmed field to
    the list of its column.
  - `q5.py` builds the registry with a dict comprehension. It reads each file with the
    column specifications `(Inicio-1, Fim)` and strips every value.
  - As written, `main.py` fails on its first data file (line 47) and returns `{}` when
    there is none. `q5.py` always fails (line 24). The model states each draft's
    intended behaviour and proves its properties. It also models the code as written,
    proved to raise those exceptions.
- **The prescription check** of `q9.py`: a prescription is feasible when no character
  occurs more often in it than in the stock.
- **The attendance report** of `q10.py`: from each file, collect the stripped lines that
  parse as dates. Turn each file's dates into a bar chart with one bar per distinct date,
  in date order, whose height is that date's number of occurrences. `main` saves one
  figure per file.

Modules:

- `PyStr` (pystr.dfy): the Python semantics the scripts rely on. This covers slices with
  clamping and negative bounds, `str.strip()` over the Unicode whitespace set,
  `str.replace(pat, '')`, `str.endswith`, `PurePath.stem` and list comprehensions. It
  also holds the exceptions that can be raised, as a `Result`.
- `Sigtap` (sigtap.dfy): what both decoder drafts share. This covers layouts, directory
  listings, file selection, table names, the last-wins registry, the field slice and the
  per-file dispatch.
- `MainDraft` (main_draft.dfy): the loops of `main.py`.
- `Q5Draft` (q5_draft.dfy): `q5.py`.
- `Prescription` (prescription.dfy): `q9.py`.
- `Attendance` (attendance.dfy): `q10.py`.

Inputs the scripts get from outside are parameters:

- A directory is a map from path to listing. A listing is a sequence of entries in the
  order the directory yields them.
- Each entry carries its file name, its lines as text-mode iteration yields them (each
  line keeps its `'\n'`), and the rows `pd.read_csv` gives when the entry is read as a
  layout.
- `datetime.strptime(s, '%Y-%m-%d').date()` is a parameter `parse: string -> Option<Date>`.
  It gives `None` where strptime raises.

Where a strict decoder would fail, the code is lenient, and the model follows the code:

- Two layout files with the same table name do not fail. The later one wins.
- A layout row with `Fim < Inicio` is not rejected. Its field is empty when `Fim` is not
  negative.
- An empty layout registry is not an error.
- `main.py` does not trim values, and each line keeps its newline.
- A line shorter than a column yields the part of the column that is present, not an
  empty string.
- Files are processed in listing order.

## Model

| member | source | states |
|---|---|---|
| PyStr.Slice | main.py:59 | `s[start:stop]` never fails. In range it is exact. A stop past the end gives the suffix, and a start past the end or a reversed range gives the empty string. A negative start counts from the end. |
| PyStr.StripShape | q5.py:44 | `strip()` removes only whitespace, and only from both ends. What remains starts and ends with non-whitespace. |
| PyStr.StripIdempotent | q5.py:44 | Stripping twice is stripping once. |
| PyStr.StripAppendSpace | q10.py:29 | A trailing whitespace character, such as the line's `'\n'`, does not change the stripped text. |
| PyStr.RemoveAllTrailing | main.py:16 | Take a pattern, such as `_layout`, none of whose proper prefixes is also its suffix. Removing it from `x + pat` gives what removing it from `x` gives: the trailing occurrence always goes. |
| PyStr.StemOfTxt | main.py:16 | The stem of `x.txt` is `x`, for any non-empty `x`. |
| Sigtap.SelectMembers | main.py:32-36 | The selected entries are exactly the listing entries whose names satisfy the test. |
| Sigtap.LayoutAlsoData | main.py:8 | A name matching `*layout.txt` is skipped as data exactly when it ends in `_layout.txt`. So `xlayout.txt` is both a layout and a data file. |
| Sigtap.TableNameOfLayoutFile | main.py:16 | The table name of `x_layout.txt` is `x` with every `_layout` removed. |
| Sigtap.MarkerBetween | main.py:16 | `_layout` between two underscore-free parts is removed. |
| Sigtap.TableNameRemovesEveryMarker | main.py:16 | A marker inside the stem goes too: `a_layoutb_layout.txt` names the table `ab`. |
| Sigtap.RegistryLastWins | main.py:13-21 | The registry has one key per table name, holding the rows of the last layout file with that name. |
| Sigtap.Field | main.py:59 | The field is `line[Inicio-1:Fim]`. In range it has `Fim-Inicio+1` characters; past the end it is the rest of the line; beyond the line it is empty. |
| Sigtap.DecodeFilesOutcome | q5.py:29-30 | The per-file dispatch fails exactly when some data file's stem has no layout, with the KeyError of the first such file. Otherwise it holds one table per stem, decoded from the last file with that stem. |
| Sigtap.DecodeFilesStopsAtError | main.py:44-62 | After a file raises, no later file is decoded. |
| MainDraft.Names | main.py:50 | The column names are the layout's `Coluna` values in row order. |
| MainDraft.DistinctNames | main.py:51 | The keys of `dict_aux` hold every column name once. They are the name list itself when the names are distinct. |
| MainDraft.ColumnLength | main.py:57-60 | After k lines, a column named by r rows holds k·r values. |
| MainDraft.DistinctColumns | main.py:57-60 | With distinct names, after k lines every column holds k values. The i-th value is the untrimmed field of line i. |
| MainDraft.DecodedShape | main.py:50-60 | Keys are in layout-row order. With distinct names, each column holds one value per line, in file order. |
| MainDraft.NewlineKept | main.py:57-59 | A column reaching past the text of a line keeps the line's `'\n'`. |
| MainDraft.BuildLayouts | main.py:5-23 | The loop over the layout files yields the last-wins registry. |
| MainDraft.AppendLine | main.py:58-60 | One line appends to each column the fields of that column's rows, in row order. It adds and removes no key. |
| MainDraft.DecodeRaw | main.py:51-60 | The nested loops over one file build `dict_aux`: one list per distinct column name, with every line appended in file order. |
| MainDraft.BuildTables | main.py:26-64 | As intended, each data file of `sigtap-simplificado` is decoded with the layout of its own stem. A missing layout raises KeyError and stops the call. |
| MainDraft.DecodeAsWritten | main.py:44-62 | The loop with its statements in the order written, from any binding of `nome_tb_rl`. Each file is decoded with the layout of the name bound before it, and stored under its own stem. An unbound name raises UnboundLocalError and a missing layout raises KeyError, either of which ends the call. |
| MainDraft.UnboundOnFirstFile | main.py:44-48 | Starting with `nome_tb_rl` unbound, the loop raises UnboundLocalError exactly when there is a file, and yields `{}` otherwise. |
| MainDraft.BuildTablesAsWritten | main.py:26-64 | The function as written raises UnboundLocalError on `nome_tb_rl` exactly when `sigtap-simplificado` holds a data file, and returns `{}` otherwise. |
| MainDraft.AsWrittenFailsWhereIntendedSucceeds | main.py:47-48 | When a data file exists and every data file has a layout, the intended decoder succeeds and the code as written fails. |
| Q5Draft.LayoutsAreRegistry | q5.py:7-10 | The dict comprehension equals the last-wins registry built by the loop of `main.py`. |
| Q5Draft.ColSpecs | q5.py:33 | One pair `(Inicio-1, Fim)` per layout row, in row order. |
| Q5Draft.TableShape | q5.py:33-44 | One record per line and one value per layout row, under the row's column name. Each value is the stripped field `line[Inicio-1:Fim]`, so no value starts or ends with whitespace. |
| Q5Draft.DraftsAgree | q5.py:36-44 | With distinct column names, each value of `q5.py` is the stripped value `main.py` stores at the same line and column. |
| Q5Draft.NewlineIrrelevant | q5.py:44 | With non-negative positions, whether a line keeps its `'\n'` makes no difference after stripping. |
| Q5Draft.TwoColumnRecord | q5.py:33-44 | With the layout `id` 1–2 and `nome` 3–6, `01ABCD` reads as `01`/`ABCD` and a short `01AB` reads as `01`/`AB`. |
| Q5Draft.DataAmongTxt | q5.py:24-26 | Skipping the `_layout` stems among the `*.txt` entries leaves exactly the data files. |
| Q5Draft.BuildTables | q5.py:13-47 | As intended, the loop runs over `sigtap_dir.glob('*.txt')` and decodes exactly the data files of the directory. A stem without a layout raises KeyError. Each decoded, stripped table is stored under its stem. |
| Q5Draft.DecodeDir | q5.py:21-45 | The body of `gera_df_tabelas`, for any expression listing the `*.txt` entries. The layouts are read first. An exception from the listing ends the call. Otherwise the entries whose stem does not end in `_layout` are decoded by stem, with KeyError for a missing layout. |
| Q5Draft.BuildTablesAsWritten | q5.py:13-47 | As written, the loop's iterable `sigtap_dir('*.txt')` raises TypeError, so the call fails whatever the directory holds. |
| Q5Draft.AsWrittenFailsWhereIntendedSucceeds | q5.py:24 | When every data file has a layout, the intended decoder succeeds and the code as written fails. |
| Prescription.Keys | q9.py:19 | `Counter(...).keys()` lists each character of the prescription once. |
| Prescription.CountIsMultiplicity | q9.py:15-16 | `Counter(s)[c]` is the multiplicity of c in s, and 0 for an absent c. |
| Prescription.CheckPrescription | q9.py:12-24 | The result is true iff no character occurs more often in the prescription than in the stock. The loop returns false at the first deficient character and changes nothing. |
| Prescription.FeasibleIsInclusion | q9.py:15-24 | Feasibility is multiset inclusion of the prescription in the stock. |
| Prescription.EmptyPrescriptionFeasible | q9.py:19-24 | An empty prescription is always feasible. |
| Prescription.MissingMedicineInfeasible | q9.py:16-21 | A prescribed character absent from the stock makes the prescription infeasible. |
| Prescription.PermutationInvariant | q9.py:15-16 | The result depends only on the two character multisets. |
| Prescription.SelfFeasible | q9.py:19-24 | Any string is feasible against itself. |
| Prescription.MoreStockStaysFeasible | q9.py:19-24 | Adding characters to the stock never makes a feasible prescription infeasible. |
| Attendance.ValidDates | q10.py:26-38 | The kept lines are at most as many as the lines, and every kept string parses. |
| Attendance.ReadDates | q10.py:23-38 | The inner loop keeps each stripped line that parses, in file order. |
| Attendance.GenerateDateLists | q10.py:10-43 | One list per file, in listing order, even when a file has no valid date. |
| Attendance.ValidDatesAppend | q10.py:26-38 | Line order is kept: the dates of a concatenation are the dates of each part. |
| Attendance.ValidDatesOfLine | q10.py:29-38 | A line is kept, stripped, exactly when its stripped text parses. Otherwise it is dropped silently. |
| Attendance.ValidDatesAreStrippedLines | q10.py:29-35 | Every kept date is stripped and is the stripped text of some line. |
| Attendance.Convert | q10.py:53 | Conversion succeeds with one date per string, in order, or fails because some string does not parse. |
| Attendance.SortedDistinct | q10.py:55-58 | The sorted keys are strictly increasing and are exactly the dates that occur. |
| Attendance.Max | q10.py:68 | `np.max` bounds every count and is one of them. |
| Attendance.Min | q10.py:68 | `np.min` is below every count and is one of them. |
| Attendance.Visualize | q10.py:45-61 | An empty list gives None. A string that does not parse gives ValueError. Otherwise the result is the chart of the parsed dates. |
| Attendance.ChartCounts | q10.py:53-61 | Bars are in strictly increasing date order and cover exactly the dates present. Each count is that date's number of occurrences, at least 1, and the counts sum to the number of dates. |
| Attendance.AmplitudeZeroIffUniform | q10.py:68-70 | The amplitude is zero iff all counts are equal. |
| Attendance.SameDateOneBar | q10.py:53-61 | Two strings for the same date make one bar of height 2: counting is on dates, not strings. |
| Attendance.SumFrequencies | q10.py:55-61 | The counts over distinct keys that cover every date add up to the number of dates. |
| Attendance.GeneratedListsConvert | q10.py:10-53 | The lists `gerar_lista_datas` produces never make `visualizar_atendimentos` raise. |
| Attendance.SaveFigures | q10.py:114-122 | `main` saves the figures in order. It stops at the first figure that raised, or with AttributeError at the first list without dates. |
| Attendance.SaveAllOutcome | q10.py:120-122 | When no figure raised, every figure is saved exactly when every list is non-empty. Otherwise the run stops with AttributeError. |
| Attendance.MainOutcome | q10.py:114-122 | On the lists of `gerar_lista_datas`, `main` saves one figure per file exactly when no file lacks a valid date. Otherwise it stops with AttributeError. |

## Left out

- pandas internals are not modelled: `pd.read_csv` parsing of layout files, `pd.DataFrame`
  construction, and `read_fwf`'s own behaviour. That behaviour includes skipping blank
  lines, filling NaN, inferring widths and refusing duplicate names. Layout rows are an
  input of each entry. `main.py`'s table is the `dict_aux` dictionary it hands to
  `pd.DataFrame`. `q5.py`'s table is the intended slice-then-strip reading of every line.
- MainDraft.BuildTables: the `ValueError` that `pd.DataFrame` raises for columns of unequal
  length is not modelled. That case arises from repeated column names, as
  MainDraft.ColumnLength shows.
- The filesystem is not modelled: globbing, `iterdir`, `open`, `resolve` and encodings.
  Directories and file contents are inputs, and listing order is the input's order.
  Only entries of the listed directory are read.
- `datetime.strptime` is the parameter `parse`. Date-format parsing is not modelled.
- q6.py is not part of this model. It is a network client with no algorithm of its own.
- The plotting in `visualizar_atendimentos` is not modelled: the figure, colour
  normalisation, labels, mean line and y-limit. A chart is its bars' dates, their
  heights and whether all bars share one colour. The title parameter and the file names
  `figs/datas{i+1}` are not modelled.
- The message printed for an empty date list, and the terminal I/O of `q9.py`
  (`input`, `print`), are not modelled.
- Q5Draft.NewlineIrrelevant: stated only for non-negative `Inicio-1` and `Fim`. A
  negative `Fim` counts from the end of the line, so the newline shifts the cut.
- Strings are sequences of characters. No encoding is modelled.

## Findings

| source | as written | input that shows it | evidently intended | confidence | as-written member | corrected member |
|---|---|---|---|---|---|---|
| main.py:47 | The loop body reads `nome_tb_rl` one line before it is assigned, so the first data file raises UnboundLocalError. | A directory holding `a_layout.txt` and `a.txt` | Look up the layout of the file's own stem, and raise KeyError only when it is missing | high (not executed) | MainDraft.BuildTablesAsWritten, MainDraft.AsWrittenFailsWhereIntendedSucceeds | MainDraft.BuildTables |
| q5.py:24 | `sigtap_dir('*.txt')` calls the Path object, which raises TypeError before any file is read. | Any directory, for instance an empty one | `sigtap_dir.glob('*.txt')` | high (not executed) | Q5Draft.BuildTablesAsWritten, Q5Draft.AsWrittenFailsWhereIntendedSucceeds | Q5Draft.BuildTables |
