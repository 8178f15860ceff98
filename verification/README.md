# A Dafny model of the PAT dashboard extractor

The dashboard script `nos.py` downloads a Google Sheets report as CSV and
scans its raw grid for monthly blocks. Each block holds fortnight
("quinzena") sub-blocks, and under each sub-block there is a row of numbers:
openings (`Vagas`), openings for people with disabilities (`PCD`) and hires
(`Contratados`). This project models two parts of the script:

- `extrair_dados_pat`, the block extractor, as a scan over the rows of the
  frame. A month register is set by rows naming AGOSTO … DEZEMBRO. A row
  mentioning QUINZENA, once a month is known, looks at most five rows down
  for the first row whose column 0 is numeric, and emits one record from it.
- the ID extraction and export URL of `ler_planilha_google`.

Layout:

- `wrappers.dfy`: `Option` and `Result`.
- `strings.dfy`: the Python `str` operations the script uses.
  - `in` is `Contains`, backed by a first-match search `IndexFrom`.
  - `split` is `Split`, with `Join` as its inverse.
  - `strip` (with Python's whitespace set), `upper`, `lower` and `capitalize`.
  - decimal rendering and parsing of integers.
- `cells.dfy`: a grid cell (`Num`, `Text` or the missing value), and the
  two ways the extractor looks at one.
  - `Norm` is `str(x).strip().upper()`.
  - `ToNumeric` is `pd.to_numeric(x, errors='coerce')`, with `None` standing
    for NaN.
- `extractor.dfy`: the scan.
  - Each row's column 0 is summarised as a `Probe`: which month it names,
    whether it is a QUINZENA header, which fortnight it announces, and its
    coerced number.
  - `Hits` runs the outer and inner loops over the probes. It yields, for
    each record, the header row, the data row, the month and the fortnight.
  - The scan is proved against reference definitions. `MonthAt` is the last
    month row at or above a row. `HitOk` says everything a hit must be.
- `records.dfy`: the frame and the records read from it.
  - `Extract` is the whole function.
  - `ExtrairDadosPat` is the same computation written as the source's
    nested loops, and is proved equal to `Extract`.
- `fetcher.dfy`: `SheetId` and `ExportUrl`.
- `examples.dfy`: concrete grids, including a four-row sample sheet.

What the code does at the edges:

- The outer loop always moves on to the next row. A header whose window
  has no numeric row is followed by row `i + 1`, not `i + 6`. One numeric
  row can serve two headers a row apart (`Examples.SharedDataRow`).
- The extractor does not swallow every failure.
  - A frame with rows but no column makes `iloc[i, 0]` raise.
  - A frame narrower than five columns makes the record's dictionary raise
    when the first record is built. Column 1 is read before column 4.
  - Both are modelled as `Failure(ColumnMissing(column))`. The rows before
    the failure produce no output, because the exception escapes.
- A month row is also tested for QUINZENA. No month name contains that word,
  so this changes nothing.

## Model

| member | source | states |
|---|---|---|
| Strings.IndexFrom | nos.py:9 | The search finds the first position at or after `i` where the pattern occurs, with no occurrence before it; it finds nothing exactly when the pattern occurs nowhere from `i` on |
| Strings.Split | nos.py:10 | `split` always gives at least one piece; without the separator that piece is the whole text; with it there are at least two pieces and the first is the text before the first separator |
| Strings.SplitPiecesFree | nos.py:10 | No piece of `split(sep)` holds the separator |
| Strings.SplitCutsLeftmost | nos.py:10 | `split(sep)` cuts at the leftmost match each time: no match of the separator starts at a position inside a piece, so with `SplitJoin` the pieces are determined, also for a separator such as `/d/` that can overlap itself |
| Strings.SplitJoin | nos.py:10 | Joining the pieces of `split(sep)` with `sep` gives back the original text |
| Strings.StripMeaning | nos.py:33 | `strip()` returns a slice of the text whose cut-away prefix and suffix are all whitespace, and which neither starts nor ends with whitespace |
| Strings.UpperMeaning | nos.py:33 | `upper()` keeps the length, turns each lower-case letter into the upper-case letter whose lower-case form it is, and leaves every other character alone; so no lower-case letter is left, no character turns into whitespace or out of it, and applying it twice is applying it once |
| Cells.Norm | nos.py:33 | `celula_texto`, `str(x).strip().upper()`; `Cells.NormMeaning` gives its meaning |
| Cells.NormMeaning | nos.py:33 | The normalised text is the upper-cased form of a slice of `str(x)` from which only whitespace was cut at either end; it holds no lower-case letter and neither starts nor ends with whitespace |
| Cells.ToNumeric | nos.py:48-56 | `pd.to_numeric(x, errors='coerce')` on columns 0, 1 and 4; `Cells.StrThenToNumeric` ties it to `str` |
| Cells.StrThenToNumeric | nos.py:48 | Any integer written out as text is coerced back to the same number |
| Extractor.ParseMonth | nos.py:36-37 | A text sets the month exactly when it is one of the five names of `lista_meses`, and the month set is the one with that name |
| Extractor.MonthNameRoundTrip | nos.py:27 | Each month is recognised by its own upper-case name and by no other text |
| Extractor.DisplayForms | nos.py:52 | `capitalize()` shows the months as Agosto, Setembro, Outubro, Novembro and Dezembro |
| Extractor.FortnightOf | nos.py:41 | The header announces the first fortnight exactly when PRIMEIRA occurs at some position of its text, and the second one otherwise |
| Extractor.Label | nos.py:41 | `label_q`; `Extractor.LabelOfHeader` gives its meaning |
| Extractor.LabelOfHeader | nos.py:41 | The label of a header text is `1ª` exactly when PRIMEIRA occurs in it and `2ª` otherwise, and the two labels are different |
| Extractor.Display | nos.py:52 | `mes_atual.capitalize()`; `Extractor.DisplayForms` gives its values |
| Extractor.Step | nos.py:36-37 | The month register update; `Extractor.StepTracksMonth` proves it equal to the last month row at or above the row |
| Extractor.ProbeOf | nos.py:33-41 | A row names a month exactly when its normalised column-0 text is in the month list, and that text is the month's name; it is a header exactly when the text contains QUINZENA; its fortnight is the first one exactly when the text contains PRIMEIRA |
| Extractor.FindAnchor | nos.py:44-50 | The window search returns the smallest offset from `k` to 5 whose row exists and is numeric, with no numeric row before it; with no result, no row from offset `k` through 5 is numeric |
| Extractor.ScanFromAppends | nos.py:28-51 | Appending each row's record as the loop goes leaves what was already emitted followed by the records of the remaining rows |
| Extractor.MonthAtMeaning | nos.py:29-37 | No month is known at a row exactly when no month row is at or above it; otherwise the month is that of the last month row at or above it |
| Extractor.LaterMonthOverrides | nos.py:36-37 | A month row sets the month of every row below it until the next month row, so a later month row overwrites an earlier one |
| Extractor.StepTracksMonth | nos.py:36-37 | The forward register after reading row `i` is the month of the last month row at or above `i` |
| Extractor.HitsFromSound | nos.py:31-58 | Every record emitted from row `i` on has a qualifying header at or after `i`, takes the first numeric row of the header's window, carries the header's month and fortnight, and the records come in header order |
| Extractor.HitsFromComplete | nos.py:40-50 | Every qualifying header at or after `i` whose window holds a numeric row emits a record |
| Extractor.HitsFromCount | nos.py:40-51 | No more records are emitted than there are qualifying header rows |
| Extractor.HitsFrom | nos.py:31-58 | The outer loop from a row on; `Extractor.HitsFromSound`, `Extractor.HitsFromComplete` and `Extractor.HitsFromCount` give its meaning |
| Extractor.Hits | nos.py:31-58 | The whole scan; `Extractor.HitsSpec` determines its output |
| Extractor.HitsSpec | nos.py:31-58 | The scan emits a record for every qualifying header whose window holds a numeric row and for no other row. Records come in strictly increasing header order, so there is at most one per header. Each record uses the first numeric row of its header's window and carries the month of the last month row above the header and the header's fortnight. The count is at most the number of qualifying headers |
| Extractor.EmptyWindowEmitsNothing | nos.py:44-50 | A header with no numeric row among the five below it emits nothing |
| Extractor.HeaderBeforeMonthEmitsNothing | nos.py:29-40 | A QUINZENA row with no month row at or above it emits nothing |
| Extractor.NoMonthRowNoHits | nos.py:29-40 | A grid without any month row yields no record |
| Records.ProbeAt | nos.py:33-48 | The probe of row `j` carries the month, header flag and fortnight of its normalised column-0 text and the coerced number of its column 0 |
| Records.BuildRecord | nos.py:51-57 | The dictionary appended for a hit; `Records.ExtractMeaning` states what each of its fields reads |
| Records.Extract | nos.py:25-60 | `extrair_dados_pat`; `Records.ExtractMeaning` states when it fails and which records it returns, and `Records.ExtrairDadosPat` proves the loop program equal to it |
| Records.ExtractMeaning | nos.py:25-60 | Extraction fails exactly when the frame has rows and either no column, or fewer than five columns with at least one record to build; the error names column 0, 1 or 4 as the source reads them. A frame without rows yields no records. On success there is one record per hit of the scan, in order: the capitalised month, `1ª`/`2ª`, and columns 0, 1 and 4 of the data row coerced, column 0 never missing |
| Records.ExtractOfHits | nos.py:51-60 | The records built one by one for the scan's hits are exactly what extraction returns |
| Records.ReadRow | nos.py:33-41 | Reading row `i` yields the month, header flag and fortnight of that row's probe |
| Records.FindDataRow | nos.py:44-50 | The inner loop with its `break` returns the offset the window search defines |
| Records.VisitRow | nos.py:33-58 | One pass of the outer loop body updates the month register as the scan does, and reports exactly the record the scan emits for that row, whose data row is numeric |
| Records.ScanRows | nos.py:31-58 | The outer loop returns the records built for the scan's hits, in order. It fails only when there is a hit and the frame has fewer than five columns, and then names the first column missing |
| Records.ExtrairDadosPat | nos.py:25-60 | The loop program returns exactly what `Extract` defines, error cases included |
| Fetcher.SheetId | nos.py:9-12 | For a link with `/d/`, the ID is a prefix of the text after the first `/d/` that holds no `/` and runs to the end of that text or up to a `/`. A link without `/d/` is taken as the ID unchanged |
| Fetcher.PrefixBeforeSlashUnique | nos.py:10 | Only one prefix fits that description, so it pins the ID down: the text after the first `/d/` up to the next `/` |
| Fetcher.ExportUrl | nos.py:9-15 | Reading the ID back from the export URL gives the link's ID whenever that ID holds no `/`; the URL is the fixed prefix, then the ID, then `/export?format=csv` |
| Fetcher.SheetIdOfExport | nos.py:9-15 | Reading the ID back from the export URL of any ID without `/` gives that ID |
| Fetcher.ExportUrlStable | nos.py:9-15 | For a link with `/d/` or without any `/`, the export URL is a fixed point: it yields the same ID and the same URL again |
| Examples.SharedDataRow | nos.py:31-58 | Two headers a row apart both take their numbers from the same numeric row below them |
| Examples.BeyondWindow | nos.py:44-45 | A numeric row six rows below a header is out of its window, and nothing is emitted |
| Examples.SampleExtract | nos.py:25-60 | The grid AGOSTO / Primeira Quinzena / blank / 12 1 5 30 10 gives exactly one record: Agosto, 1ª, 12, 1, 10 |

## Left out

- The download (`pd.read_csv` with `on_bad_lines='skip'`) and its error report through `st.error` (nos.py:18-22). This is network I/O and library parsing. The frame is an input to the model.
- Everything from nos.py:63 to the end of the file: page set-up, metrics, the Plotly chart, the table view and the sidebar. This is presentation code.
- The placement-rate computation at nos.py:84. It is floating-point division and formatting.
- `pd.DataFrame(dados_extraidos)` at nos.py:60 is modelled as the sequence of records itself.
- Cells.ToNumeric: only integer literals are coerced (an optional sign and then digits). Decimal points, exponents, `inf` and surrounding blanks are treated as not numeric, and `Vagas` is an integer rather than a float.
- Cells.Str: a number prints without the `.0` that pandas shows for a float column. Such a text can neither be a month name nor contain QUINZENA or PRIMEIRA, so the extractor's decisions do not depend on it.
- Strings.Upper: only `a`–`z` and `à`–`þ` except `÷` are upper-cased. Every other character is left as it is, including `µ`, `ß`, `ÿ`, dotless `ı`, long `ſ` and ligatures such as `ﬆ` (U+FB06), which Python maps to `Μ`, `SS`, `Ÿ`, `I`, `S` and `ST`. So a cell spelled with `ı`, `ſ` or a ligature that Python would read as a month name or as QUINZENA (`"agoﬆo".upper()` is `AGOSTO`) is not read that way by the model.
- Frames are rectangular (`Frame.Valid`), as the frames pandas builds are. Ragged CSV lines are dropped or padded by the reader, which is not modelled.
