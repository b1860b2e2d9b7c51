# Medallion ETL pipeline: a verified model of its deterministic core

The system is a small batch ETL job. It lists the files of the local
directory `data`. For each file it then runs four stages:

- **Bronze** uploads the file unchanged to `raw/` plus its base name.
- **Silver** reads the file as CSV and appends a processing-timestamp
  column `dt_processamento`. It turns every cell into text and fills the
  cells reading `nan` in five columns (`email` and the address fields
  `state`, `street`, `number`, `additionals`) with Portuguese defaults. It
  writes the result as parquet in the input's directory, under the Silver
  name: the base name with every `.csv` replaced by `.parquet`. When the
  base name holds no `.csv`, that is the input itself, which the parquet
  overwrites. It uploads the parquet to `silver/` plus the Silver name.
- **Gold** reads the Silver parquet back and counts the rows per `state`
  value, or gives a single `total_registros` row when there is no `state`
  column. It writes the counts in the Silver file's directory, under the
  Gold name: the Silver name with every `.parquet` replaced by
  `_gold.parquet` (so `a.parquet.bak` gives `a_gold.parquet.bak`). When the
  Silver name holds no `.parquet`, that is the Silver file itself, which
  the counts overwrite. It uploads them to `gold/` plus the Gold name.
- **Validation** reads the Gold object straight from the bucket. It only
  reports the row count, or the failure.

A failing stage ends that file's run, and the batch goes on with the next
file.

The model is split into one module per concern:

- `Paths` models the POSIX `os.path.join`, `basename` and `dirname`, and
  Python's `str.replace`, all on `seq<char>`.
- `Tables` holds the table shape shared by the stages. A table is a list
  of distinct column names and rectangular rows. It also holds the cell
  operations.
- `Lister` models `listar_arquivos`, as a method with a loop.
- `Naming` derives the local paths and the bucket keys of the three
  layers.
- `Silver` models the cell transform. The fill loop is a method, proved
  equal to a cellwise specification.
- `Gold` models the group count and its fallback.
- `Pipeline` models the stages over an abstract world (`Store`: local
  disk and bucket as maps), the per-file run and the batch loop of
  `executar_pipeline`, as a method.

Every outside effect of a stage is a field of `Env`, a function that says
how that effect turns out:

- the CSV reader;
- the clock reading, as text;
- which writes fail;
- which uploads fail;
- which bucket reads fail.

Writing a parquet file and reading it back gives the same table.

The batch `Pipeline.RunPipeline` takes two more inputs: what listing the
input directory gives (`Lister.Directory`), and the starting disk and
bucket (`Store`). Nothing ties the two together. A file listed as regular
may be absent from the starting disk; it then fails in Bronze with a
missing-file error.

Some behaviour of the code is easy to misread; the model follows the code:

- Gold is called on whatever Silver returned. Only the clean-up list and
  the validation are guarded by a non-empty path (`main.py:189-198`).
  Silver never returns an empty path, so a guard on Silver's path before
  Gold would change nothing.
- A CSV with a header and no data rows does not make pandas raise its
  empty-data error: that needs a file with no columns at all. Which inputs
  fail to parse is left to `Env.readCsv`.
  `Pipeline.EmptyInputStopsInSilver` states what happens when the reader
  reports an empty file.
- The lister's `listdir` is evaluated in full before the loop. An
  enumeration error can therefore only come before anything was gathered,
  so `Unlistable` gives `[]`. A missing directory also
  gives `[]`.
- Paths are relative (`data/<name>`), not absolute.

## Model

| member | source | states |
|---|---|---|
| Lister.Listed | main.py:33-48 | no contract of its own; `Lister.ListFiles` is proved to return it, and `Lister.FilePathsMembers`, `Lister.FilePathsConcat`, `Lister.NoFilesListEmpty` and `Lister.ListedBasename` state which paths it holds and in what order |
| Lister.ListFiles | main.py:33-48 | the list returned is exactly `Listed(dir, d)`: for a listed directory, `join(dir, name)` of every regular-file entry in listing order; for a missing or unlistable directory, the empty list |
| Lister.FilePathsMembers | main.py:41-44 | a path is listed if and only if it is the join of the directory with an entry that is a regular file |
| Lister.FilePathsConcat | main.py:41-44 | listing keeps order: the files of two runs of entries are the files of the first followed by those of the second |
| Lister.NoFilesListEmpty | main.py:41-44 | a directory whose entries are all non-regular (sub-directories, broken links) lists as empty |
| Lister.ListedBasename | main.py:42-44 | every listed path comes from a regular-file entry, and its base name is that entry's name |
| Paths.Join | main.py:42 | no contract of its own; `Paths.JoinEndsWith` and `Paths.BasenameOfJoin` state that it ends in the joined name and that `basename` takes that name back |
| Paths.Basename | main.py:96 | the base name is a suffix of the path and holds no separator; `Paths.BasenameOfJoin` and `Paths.JoinDirnameBasename` relate it to `join` and `dirname` |
| Paths.Dirname | main.py:97 | no contract of its own; `Paths.JoinDirnameBasename` states that joining it with the base name gives the path back |
| Paths.Replace | main.py:96 | no contract of its own; `Paths.ReplaceAbsent`, `Paths.ReplaceLength`, `Paths.ReplaceAvoids` and `Paths.ReplaceTrailing` state what `str.replace` keeps and changes |
| Paths.JoinEndsWith | main.py:42 | a joined path ends in the name that was joined |
| Paths.BasenameOfJoin | main.py:42 | the base name of `join(dir, name)` is `name` when the name holds no separator |
| Paths.JoinDirnameBasename | main.py:97 | joining a path's directory and base name gives the path back when it has no doubled separator |
| Paths.ReplaceAbsent | main.py:96 | `str.replace` leaves a string without the pattern unchanged |
| Paths.ReplaceLength | main.py:96 | replacing by a longer text never shortens the string, and strictly lengthens every string holding the pattern |
| Paths.ReplaceAvoids | main.py:96 | a character found neither in the string nor in the replacement is not in the result |
| Paths.ReplaceTrailing | main.py:96 | a stem followed by the pattern becomes stem plus replacement, when the stem lacks the pattern's first character, or lacks the pattern while that character occurs only at the pattern's head (the dot of `.csv`, `.parquet`) |
| Tables.SetColumn | main.py:79 | assigning a constant column keeps the rows; it overwrites an existing column of that name in place or appends it; every row then holds the value there and no other cell changes |
| Tables.MapCells | main.py:82 | applying a function to every cell keeps the names and rows, and each cell is the function of the old cell |
| Tables.ReplaceInColumn | main.py:93 | a cell of the chosen column equal to the old text becomes the new text; every other cell is unchanged |
| Silver.FillCell | main.py:93 | no contract of its own; `Silver.FillCellRule` states when a cell changes and into what |
| Silver.FillMissing | main.py:87-93 | the loop over the five defaults, in any order, skipping absent columns, yields exactly the cellwise fill `Filled(t)` |
| Silver.Filled | main.py:87-93 | the fill keeps the column names and the row count |
| Silver.FillCellRule | main.py:87-93 | a cell changes only when its column is one of the five and it reads `nan`, and then it becomes that column's default; the five defaults are `Sem Registro`, `Ausente`, `Nao informado`, `Sem numero`, `Sem complemento` |
| Silver.DefaultsAreNotNaN | main.py:87-89 | no default is `nan` |
| Silver.FilledHasNoNaN | main.py:91-93 | after the fill, no cell of a present fill column reads `nan` |
| Silver.FillIdempotent | main.py:91-93 | filling twice gives the same table as filling once |
| Silver.Transform | main.py:75-93 | no contract of its own; `Silver.TransformShape`, `Silver.TransformCells` and `Silver.TransformStampNonEmpty` state the shape and the cells of the Silver table |
| Silver.TransformShape | main.py:75-93 | the Silver table has the input's row count; it has the input's columns plus `dt_processamento` (overwritten in place if present); that column holds the same timestamp in every row; every other cell is the filled text of the input cell |
| Silver.TransformStampNonEmpty | main.py:79-82 | with a clock text that is not empty, the Silver table has `dt_processamento` and every row's cell there is non-empty |
| Silver.TransformCells | main.py:82-93 | a missing cell of a fill column becomes its default; a text cell other than `nan` is kept; cells of other columns are their text form |
| Gold.GroupCount | main.py:128 | the counts have exactly the column's distinct values as keys, and each count is that value's number of occurrences |
| Gold.GroupCountSum | main.py:128 | the counts add up to the number of rows |
| Gold.Aggregate | main.py:122-128 | the fallback total is taken exactly when there is no `state` column |
| Gold.AggregateConservesRows | main.py:122-128 | the Gold result accounts for every input row |
| Gold.AggregateWithoutState | main.py:122-125 | without `state`: one row holding the total row count |
| Gold.AggregateByState | main.py:126-128 | with `state`: one entry per distinct state value of the rows, each count at least 1 and equal to that value's number of rows |
| Naming.RawKey | main.py:57 | no contract of its own; `Naming.KeysDistinct` states that `raw/` keys never meet the other layers' keys |
| Naming.SilverName | main.py:96 | no contract of its own; `Naming.DerivedNames`, `Naming.CsvBecomesParquet` and `Naming.CustomersSilverName` state the names it gives |
| Naming.SilverPath | main.py:96-97 | no contract of its own; `Naming.SilverBasename` and `Naming.SilverPathIsInputIff` state its base name and when it is the input path |
| Naming.SilverKey | main.py:102 | no contract of its own; `Naming.KeysDistinct` states that `silver/` keys never meet the other layers' keys |
| Naming.GoldName | main.py:130 | no contract of its own; `Naming.DerivedNames`, `Naming.ParquetBecomesGold` and `Naming.CustomersGoldName` state the names it gives |
| Naming.GoldPath | main.py:130-131 | no contract of its own; `Naming.GoldPathNonEmpty`, `Naming.GoldKeyAgrees` and `Naming.GoldPathIsSilverIff` state that it is non-empty, its base name's key, and when it is the Silver path |
| Naming.GoldKey | main.py:136 | no contract of its own; `Naming.KeysDistinct` and `Naming.GoldKeyAgrees` state that `gold/` keys never meet the other layers' keys and that validation reads the uploaded key |
| Naming.DerivedNames | main.py:96 | derived names hold no separator and are empty only when the original name is |
| Naming.SilverBasename | main.py:96-103 | the base name of the Silver path is the name uploaded under `silver/` |
| Naming.GoldKeyAgrees | main.py:130-137 | the key the loop validates, `gold/` plus the Gold path's base name, is the key the Gold file was uploaded under |
| Naming.GoldPathNonEmpty | main.py:130-131 | a file with a base name gets a non-empty Gold path |
| Naming.SilverPathIsInputIff | main.py:96-97 | the Silver path equals the input path if and only if the input's base name holds no `.csv` |
| Naming.GoldPathIsSilverIff | main.py:130-131 | the Gold path equals the Silver path if and only if the Silver base name holds no `.parquet` |
| Naming.KeysDistinct | main.py:57 | the `raw/`, `silver/` and `gold/` keys never coincide, whatever the names; no `raw/` key lies under `silver/` or `gold/`, and no `silver/` key under `gold/` |
| Naming.CsvBecomesParquet | main.py:96 | `<stem>.csv` gets the Silver name `<stem>.parquet` when the stem holds no `.csv` (it may hold other dots, as `sales.2024`) |
| Naming.ParquetBecomesGold | main.py:130 | `<stem>.parquet` gets the Gold name `<stem>_gold.parquet` when the stem holds no `.parquet` |
| Naming.DotlessStem | main.py:96 | a stem without any dot gets both renamings, the Silver one here and the Gold one of `main.py:130` |
| Naming.CustomersSilverName | main.py:96 | `customers.csv` becomes `customers.parquet` |
| Naming.CustomersGoldName | main.py:130 | `customers.parquet` becomes `customers_gold.parquet` |
| Pipeline.Upload | main.py:57 | no contract of its own; `Pipeline.BronzeResult` and `Pipeline.UploadIdempotent` state when it succeeds and that it replaces the one object |
| Pipeline.WriteLocal | main.py:99 | no contract of its own; `Pipeline.SilverResult` and `Pipeline.GoldResult` state when the parquet write succeeds and that it changes only its path |
| Pipeline.IngestBronze | main.py:53-68 | no contract of its own; `Pipeline.BronzeResult` gives its outcome and new state |
| Pipeline.ProcessSilver | main.py:71-113 | no contract of its own; `Pipeline.SilverResult` gives its outcome and new state, success and failure |
| Pipeline.ProcessGold | main.py:116-145 | no contract of its own; `Pipeline.GoldResult` gives its outcome and new state, success and failure |
| Pipeline.BronzeResult | main.py:53-68 | Bronze succeeds if and only if the file exists and its upload goes through; it then only sets `raw/<name>` to the file's content, and on failure it changes nothing |
| Pipeline.SilverResult | main.py:71-113 | Silver succeeds if and only if the file exists, parses, and its parquet is written and uploaded; it then writes the Silver table beside the input and under `silver/<name>`; on failure the bucket is unchanged and only the Silver path on disk may differ |
| Pipeline.GoldResult | main.py:116-145 | Gold succeeds if and only if a Silver table is at the path and the Gold file is written and uploaded; it then writes the summary beside it and under `gold/<name>`; on failure the bucket is unchanged and only the Gold path on disk may differ |
| Pipeline.UploadIdempotent | main.py:57 | two uploads of the same file to the same key, each succeeding or failing on its own: when both go through the bucket is as one upload leaves it; in every case the object is that of the last upload that went through |
| Pipeline.ValidateCloud | main.py:148-164 | the validation read always reports a result, the row count or unreadable: it never fails the file |
| Pipeline.ProcessFile | main.py:177-200 | the report is for the file processed |
| Pipeline.CompletesIff | main.py:181-200 | a file goes through Gold if and only if every outside step it needs succeeds; the validation read plays no part |
| Pipeline.CompletedEffects | main.py:181-200 | after a full run of one file the bucket holds the raw copy, the Silver table and the Gold summary; the disk holds the Silver and then the Gold parquet; validation reads the Gold key and reports the Gold row count or unreadable |
| Pipeline.ValidationOnSuccess | main.py:194-200 | the validated key is the Gold upload key, and its read gives the Gold row count unless the read fails |
| Pipeline.BronzeFailureChangesNothing | main.py:185 | a Bronze failure leaves the world as it was |
| Pipeline.SilverFailureSkipsUploads | main.py:99-113 | after a Silver failure nothing under `silver/` or `gold/` changed and at most the Silver parquet was written |
| Pipeline.GoldFailureSkipsUpload | main.py:133-145 | after a Gold failure nothing under `gold/` changed, and the disk differs at most at the Silver path and the Gold path |
| Pipeline.FailureSkipsGold | main.py:181-207 | after any stage failure nothing under `gold/` changed |
| Pipeline.EmptyInputStopsInSilver | main.py:108-110 | a file the reader finds empty stops in Silver with that error, having only its raw copy uploaded |
| Pipeline.ListedPathShape | main.py:42 | a listed path is `data/<name>`, its base name is the entry's name, and it has no doubled separator |
| Pipeline.ListedInputOverwritten | main.py:96-99 | for a listed file: the Silver path is the input path if and only if the name holds no `.csv`; after a full run such an input is replaced by the Silver table, or by the Gold summary when the name also holds no `.parquet` |
| Pipeline.ListedInputValidated | main.py:194-200 | a listed file that goes through Gold always has its Gold object read back |
| Pipeline.RunFiles | main.py:177-207 | no contract of its own; `Pipeline.RunPipeline` is proved to compute it, and `Pipeline.RunFilesEach`, `Pipeline.RunFilesAgree` and `Pipeline.ValidationNeverPropagates` state what it gives |
| Pipeline.RunPipeline | main.py:169-207 | the batch loop gives exactly the fold of the per-file run over the listed files; with no file listed it returns at once with no report and no change |
| Pipeline.RunFilesEach | main.py:177-207 | one report per file, in order; each is that file's full run from the state the earlier files left, whatever became of them |
| Pipeline.RunFilesAgree | main.py:177-207 | two per-file runs that agree on all but validation give batches that agree on all but validation |
| Pipeline.ValidationIsolated | main.py:150-164 | how the validation read of a file turns out changes nothing else about that file's run |
| Pipeline.ValidationNeverPropagates | main.py:163-164 | with any other outcome of the validation reads, the batch leaves the same state and the same reports, validation results aside |

## Left out

- Configuration (`load_dotenv`, environment variables, the storage client
  and `exit()` on failure, `main.py:10-30`): external set-up, not logic.
- The real uploads, local writes and bucket reads: the outcome of each is
  a parameter of `Env`.
- CSV parsing, and the text pandas gives a number or a timestamp under
  `astype(str)`. These are `Env.readCsv` and `Env.stampOf`. The model
  fixes only that a missing value becomes `nan`.
- pandas 3 strings. The model follows pandas before 3.0, where a column of
  text has the object dtype and `astype(str)` turns a missing value into
  the text `nan`. With the default string dtype of pandas 3, `astype(str)`
  keeps missing values missing: `.replace('nan', valor)` then finds
  nothing, `.fillna(valor)` is what fills the five columns, and the other
  columns keep missing values where the model has `nan`.
- Parquet and snappy serialisation. A written table reads back unchanged.
  The Gold read fails on anything but a Silver table, a Gold summary
  included, though pandas would read that one. Within `ProcessFile` the
  Gold read only ever meets the Silver table just written, so this does
  not matter there. The validation read finds any pipeline artifact
  readable, and any other object unreadable.
- The clock: `Env.stampOf` gives the text of the reading for each file.
  It may be any text, the empty one included; the text of a real
  timestamp is never empty, and `Silver.TransformStampNonEmpty` states
  what follows from that.
- Repeated attempts always turn out the same. Each effect is a fixed
  function of its path or key: `writeFails(path)`,
  `uploadFails(local, key)`, `remoteReadFails(key)`. A second attempt at
  the same path or key, in the same file's run or a later file's, has the
  first attempt's outcome. The real program can fail on one attempt and
  succeed on another. So the model does not capture these cases:
  - A file whose name holds neither `.csv` nor `.parquet` has one path for
    its Silver and Gold parquet. In the model, the Gold write at
    `main.py:133` can never fail after the Silver write at `main.py:99`
    has succeeded.
  - A failed upload followed by a successful one to the same key.
    `Pipeline.UploadIdempotent` covers that only when the two attempts
    are given separate environments.
- Links and other aliases on the local disk. The disk is keyed by path
  text, so two paths naming one file are two unrelated entries. The lister
  follows symbolic links (`os.path.isfile`), and `to_parquet` writes
  through them. So when the Silver or Gold file lands on a listed input
  that is a link, the real write also changes the link's target. The model
  changes only the entry at the listed path. `Pipeline.SilverResult`,
  `Pipeline.SilverFailureSkipsUploads`, `Pipeline.CompletedEffects` and
  `Pipeline.ListedInputOverwritten` speak of paths, not of the files
  behind them. Hard links are not modelled either.
- Partial writes: a failed `to_parquet` leaves the disk unchanged in the
  model. The real call can leave a truncated file behind. When the
  input's name holds no `.csv`, that file is the input itself.
- Windows paths. `Paths` is `posixpath`: only `/` separates. On Windows,
  `os.path` is `ntpath`, which also splits on `\` and knows drive letters.
- Printing, including the `head()` sample of the validation read: output
  only.
- The clean-up list `lixo_para_limpar` and its commented-out loop
  (`main.py:179`, `main.py:189-195`, `main.py:202-204`): built, never used.
- Exception types. `StageError` keeps only a missing file, an empty CSV
  and any other failure. All three are re-raised alike and end the file's
  run. Exceptions outside `Exception` (interrupts) are not modelled.
- `.fillna(valor)` after `.replace('nan', valor)` (`main.py:93`): under
  the pandas before 3.0 that the model follows, every cell is already text
  by then, so it changes nothing and is not modelled.
- The functions below have no contract of their own. What each gives is
  stated by the lemmas named in its "## Model" row, and by the methods
  proved to compute them:
- Lister.Listed: stated by `Lister.ListFiles` and the `Lister` lemmas.
- Paths.Join: stated by `Paths.JoinEndsWith` and `Paths.BasenameOfJoin`.
- Paths.Dirname: stated by `Paths.JoinDirnameBasename`.
- Paths.Replace: stated by the four `Paths.Replace...` lemmas.
- Silver.FillCell: stated by `Silver.FillCellRule`.
- Silver.Transform: stated by `Silver.TransformShape`,
  `Silver.TransformCells` and `Silver.TransformStampNonEmpty`, kept
  apart so callers do not carry its quantifiers.
- Naming.RawKey: stated by `Naming.KeysDistinct`.
- Naming.SilverKey: stated by `Naming.KeysDistinct`.
- Naming.GoldKey: stated by `Naming.KeysDistinct` and `Naming.GoldKeyAgrees`.
- Naming.SilverName: stated by `Naming.DerivedNames` and
  `Naming.CsvBecomesParquet`.
- Naming.SilverPath: stated by `Naming.SilverBasename` and
  `Naming.SilverPathIsInputIff`.
- Naming.GoldName: stated by `Naming.DerivedNames` and
  `Naming.ParquetBecomesGold`.
- Naming.GoldPath: stated by `Naming.GoldPathNonEmpty`,
  `Naming.GoldKeyAgrees` and `Naming.GoldPathIsSilverIff`.
- Pipeline.Upload: stated by `Pipeline.BronzeResult` and
  `Pipeline.UploadIdempotent`.
- Pipeline.WriteLocal: stated by `Pipeline.SilverResult` and
  `Pipeline.GoldResult`.
- Pipeline.IngestBronze: stated by `Pipeline.BronzeResult`.
- Pipeline.ProcessSilver: stated by `Pipeline.SilverResult`.
- Pipeline.ProcessGold: stated by `Pipeline.GoldResult`.
- Pipeline.RunFiles: stated by `Pipeline.RunPipeline`,
  `Pipeline.RunFilesEach`, `Pipeline.RunFilesAgree` and
  `Pipeline.ValidationNeverPropagates`.
- Pipeline.ProcessFile: its own contract only names the file;
  `Pipeline.CompletesIff`, `Pipeline.CompletedEffects` and the failure
  lemmas state what it does.
