# WDC warehouse-data core, modelled in Dafny

This project models three routines of the WDC shipment-data pipeline:

- **Sector classification** (`utils/classification.py`). Every shipment row carries a dock
  `box` and an order type. An ordered table of sector rules labels the row. Each rule has a
  name, a list of order types and an optional inclusive box range. A rule writes its name
  into the rows it matches that still hold the default label, "Outras Saidas", so the first
  matching rule with a non-default name decides. A missing or non-numeric box is coerced to
  -1. The single SLA rule gives an order a deadline of 05:30 on the next calendar day.
- **Penultimate date** (`utils/get_infos.py`). This scans one column of a Parquet file batch
  by batch, skips nulls, and keeps two candidates: the largest value seen and the largest
  value strictly below it. It answers the second-largest distinct value. The answer is
  nothing when the file is missing, when opening or reading raises, or when fewer than two
  distinct values occur.
- **Consolidation** (`utils/reader.py`, `merge_parquet`). The run handles each route
  (source directory → destination directory) in turn:
  - It globs `*.parquet` in the destination, then in the source.
  - It leaves out the consolidated output `<source name>_consolidated.parquet`.
  - It streams every batch of every candidate into one writer, which is created lazily on
    the first batch's schema.
  - It closes the writer whatever happens.
  - Only when every read and write succeeded does it unlink the candidates.
  - A route with no candidates is skipped.
  - An exception ends the whole run. The route loop has only `try/finally`, so the
    exception leaves the loop after the writer is closed. The logging decorator logs it
    and re-raises it to the caller.
  - Each route first creates its destination with `mkdir`. The call is modelled with
    its keyword as a parameter: `Parents` as intended, or `Parens` as written.

Layout:

- `wrappers.dfy`: `Option`.
- `classification.dfy`: the rule table. `FirstMatch` is the reference meaning of one row's
  label. `ApplySetorRules` is the in-place labelling loop over an array, proved against
  `FirstMatch`. Also the SLA deadline.
- `get_infos.dfy`: the reference answer `PenultimateSpec` (second-largest distinct non-null
  value) and the scan `PenultimateDate`, whose loops are proved against it through the
  invariant `TopTwo`.
- `reader_spec.dfy`: the file system (contents plus listing order), candidates, the read
  stream, and what the writer accepts. As functions: one route once its destination exists
  (`RouteSpec`), one route with its `mkdir` call in front (`RouteRun`), and the run
  (`MergeSpec`).
- `reader_properties.dfy`: what a route and a run promise, stated over `RouteSpec` and
  `MergeSpec`.
- `reader.dfy`: class `Store`, whose `files` and `listing` fields the route methods update in
  place. `MergeRoute` and `MergeParquet` are proved equal to `RouteRun` and `MergeSpec`.

Modelling choices:

- Timestamps are integer seconds with no time zone.
- A Parquet file is the sequence of batches its reader yields. A file whose reader raises
  partway through is `Damaged`. A column chunk that raises is `Unreadable`.
- Glob order is the order of the file system's listing.
- A consolidated output left by an earlier run is never a candidate. A route therefore
  overwrites it rather than merging it.
- A later route with the same destination does see an earlier route's output as a candidate.

## Model

| member | source | states |
|---|---|---|
| Classification.FirstMatch | utils/classification.py:145-152 | a row's label is the default or the name of a rule that matches the row (listed type and, when ranged, box within both ends) |
| Classification.FirstMatchSnoc | utils/classification.py:145-152 | one more rule after a prefix: a row already labelled keeps its label, otherwise it takes the rule's name exactly when the rule matches |
| Classification.LabelIsSticky | utils/classification.py:152 | once a row's label differs from the default, no later rule changes it |
| Classification.FirstMatchWins | utils/classification.py:145-152 | a matching rule with a non-default name decides the label when no earlier rule did |
| Classification.NoMatchKeepsDefault | utils/classification.py:143-152 | a row that no rule matches keeps the default label |
| Classification.EmptyTypesRuleIsInert | utils/classification.py:84-87 | a rule with no order types (the unnamed rule of the table) can be removed without changing any label |
| Classification.SentinelMissesRangedRules | utils/classification.py:140 | the -1 given to a missing or non-numeric box lies outside every ranged rule of the table |
| Classification.ApplySetorRules | utils/classification.py:134-154 | one label per row, in row order, each equal to the row's `FirstMatch` label over the whole table |
| Classification.ApplyRule | utils/classification.py:146-152 | one pass of a rule over the label array turns labels for the first k rules into labels for the first k+1 |
| Classification.RowLabelStep | utils/classification.py:146-152 | the masked assignment of rule k on one row: a default label becomes the rule's name if the rule matches, any other label stays |
| Classification.ExampleLabels | utils/classification.py:24-132 | against the sector table: a delivery at box 560 is "Fracionado Pesados", a store supply at box 300 is "Polo - Abastecimento de Lojas", an unknown type keeps "Outras Saidas" |
| Classification.ExampleFracionado | utils/classification.py:25-29 | a heavy-goods delivery at box 560 takes the first rule |
| Classification.ExamplePolo | utils/classification.py:31-53 | a store-supply order at box 300 misses the 595-638 rule and takes the 277-326 rule |
| Classification.ExampleUnknownType | utils/classification.py:24-132 | an order type listed by no rule keeps the default |
| Classification.NextDayAtHalfPastFive | utils/classification.py:166 | the deadline falls on the calendar day after the order, at 05:30, strictly after the order and at most a day and 5h30 later |
| Classification.DeadlineMonotone | utils/classification.py:163-167 | a later order never gets an earlier deadline; orders of the same calendar day share one deadline |
| GetInfos.FirstUnreadable | utils/get_infos.py:40-70 | the index of the first batch whose read raises: all earlier batches read, that one raises |
| GetInfos.MaxOf | utils/get_infos.py:54-58 | the result occurs among the values and none exceeds it |
| GetInfos.StrictlyBelow | utils/get_infos.py:60-63 | the result holds exactly the values strictly below the bound |
| GetInfos.SecondDistinctMax | utils/get_infos.py:14-26 | absent exactly when all values are equal (or there are none); otherwise the largest value strictly below the maximum |
| GetInfos.FlatAppend | utils/get_infos.py:40 | the values of two runs of batches are the values of each, one after the other |
| GetInfos.NonNullMembers | utils/get_infos.py:43-51 | a value survives null-skipping exactly when it occurs as a non-null entry |
| GetInfos.NonNullAppend | utils/get_infos.py:49-51 | null-skipping distributes over concatenation |
| GetInfos.SameValuesSameMax | utils/get_infos.py:54-58 | two non-empty sequences with the same values have the same maximum |
| GetInfos.SameValuesSameAnswer | utils/get_infos.py:14-26 | the answer depends only on which values occur, not on their order or repetition |
| GetInfos.TopTwoDetermines | utils/get_infos.py:72-78 | when the two candidates describe the values seen, the maximum candidate is their maximum and the runner-up is the second-largest distinct value |
| GetInfos.ObserveNewMaximum | utils/get_infos.py:54-58 | a value above the maximum (or the first value) becomes the maximum and the old maximum the runner-up, keeping the invariant |
| GetInfos.ObserveNewRunnerUp | utils/get_infos.py:60-63 | a value below the maximum and above the runner-up becomes the runner-up, keeping the invariant |
| GetInfos.ObserveNoChange | utils/get_infos.py:54-63 | a copy of the maximum, or a value not above the runner-up, leaves both candidates valid |
| GetInfos.AllReadableInsert | utils/get_infos.py:40-70 | inserting a readable batch does not change whether every batch reads |
| GetInfos.RedundantBatchIrrelevant | utils/get_infos.py:40-64 | a batch holding only nulls or values already present does not change the answer |
| GetInfos.ReorderIrrelevant | utils/get_infos.py:40-64 | reordering the values or re-cutting them into batches does not change the answer |
| GetInfos.NonNullStep | utils/get_infos.py:49-51 | null-skipping over one more entry of a batch adds that entry's value exactly when it is not null |
| GetInfos.Observe | utils/get_infos.py:54-63 | the comparison branches on one non-null value keep the two candidates describing the values seen |
| GetInfos.ObserveBatch | utils/get_infos.py:49-62 | after one batch the candidates describe the values seen before plus the batch's non-null values |
| GetInfos.ReadOneMore | utils/get_infos.py:40-64 | the values read after one more batch are those before it followed by its own non-null values |
| GetInfos.ScanStops | utils/get_infos.py:66-70 | a read that raises makes the answer absent |
| GetInfos.ScanCompletes | utils/get_infos.py:72-78 | after the last batch the runner-up candidate is the answer |
| GetInfos.PenultimateDate | utils/get_infos.py:14-78 | answers the second-largest distinct non-null value; nothing for a missing file, a read that raises, or fewer than two distinct values; reads no batch of a missing file and stops at the batch that raises |
| GetInfos.AsWrittenNeverAnswers | utils/get_infos.py:43 | as written (every batch read through the misspelt `drop_null` raises), no file yields an answer |
| GetInfos.DropNullTypoHidesAnswer | utils/get_infos.py:43 | a file with one batch [1, 2]: no answer as written, 1 with nulls dropped as intended |
| ReaderSpec.OutputPath | utils/reader.py:75 | the consolidated output lies in the destination and is a Parquet name |
| ReaderSpec.Glob | utils/reader.py:77-80 | exactly the listed Parquet files of the directory, without repeats when the listing has none |
| ReaderSpec.Without | utils/reader.py:82 | exactly the entries other than the excluded path, without repeats when the input has none |
| ReaderSpec.WithoutAppend | utils/reader.py:77-82 | excluding a path from two globs joined is joining the two exclusions |
| ReaderSpec.Candidates | utils/reader.py:77-82 | the candidates are exactly the listed Parquet files of the destination or the source other than the output, so the output is never read or unlinked |
| ReaderSpec.DestinationFilesFirst | utils/reader.py:77-80 | no source-only file comes before a destination file among the candidates |
| ReaderSpec.FirstFailureFound | utils/reader.py:95-98 | the first failure is a candidate that fails; there is none exactly when every candidate opens and reads to its end |
| ReaderSpec.FirstFailureAppend | utils/reader.py:95-98 | the first failure over two runs of files is the first run's, else the second's |
| ReaderSpec.StreamAppend | utils/reader.py:95-98 | reading two runs of files: the second is read only when the first read to its end |
| ReaderSpec.RowCountAppend | utils/reader.py:109 | the row count of two streams joined is the sum of their counts |
| ReaderSpec.StreamRowCount | utils/reader.py:95-111 | with no failure, the rows counted are the sum over the candidates of each file's rows |
| ReaderSpec.Conforming | utils/reader.py:101-108 | the longest prefix of batches carrying the schema: all inside carry it, the next one does not |
| ReaderSpec.Written | utils/reader.py:101-108 | what the writer accepts is a prefix of the stream, non-empty when the stream is, all on the first batch's schema, and stops only at a batch with another schema |
| ReaderProperties.PutFileWellFormed | utils/reader.py:102-106 | writing a file keeps the listing in step with the stored files |
| ReaderProperties.DeleteAllEffect | utils/reader.py:123-124 | unlinking touches only the listed paths; on success each was present and is gone; it raises exactly when a path is absent or repeated; the listing stays in step |
| ReaderProperties.RouteOutput | utils/reader.py:84-119 | a route is skipped exactly when it has no candidates and then changes nothing; otherwise the writer ends closed, holding what it accepted, and the output file holds that; no writer is created exactly when no candidate yields a batch, and then the output is left as it was |
| ReaderProperties.FailedRouteDeletesNothing | utils/reader.py:94-124 | a route that raises while reading or writing changes no file but its output |
| ReaderProperties.CompletedRoute | utils/reader.py:90-124 | a completed route read every candidate to its end, wrote every batch in candidate order, counted their rows and files, unlinked every candidate and touched nothing else |
| ReaderProperties.NoCandidatesLeft | utils/reader.py:77-88 | a listing holding only files the route did not consider, plus its output, offers no candidates |
| ReaderProperties.RerunAfterCompletionSkips | utils/reader.py:84-88 | running a completed route again skips it |
| ReaderProperties.RoutePreservesWellFormed | utils/reader.py:70-124 | a route keeps the listing in step with the stored files |
| ReaderProperties.DistinctDirsDeleteCleanly | utils/reader.py:123-124 | when source and destination differ, the unlink loop never meets a missing file |
| ReaderProperties.SameDirNeverCompletes | utils/reader.py:77-80 | a route whose source is its destination globs each file twice and never completes |
| ReaderProperties.MergeStopsAtFirstRaise | utils/reader.py:70-124 | for either `mkdir` call: at most one report per route; only the last can be a raise; a run that stops early stops at a raise |
| ReaderProperties.MergePreservesWellFormed | utils/reader.py:70-124 | for either `mkdir` call, the run keeps the listing in step with the stored files |
| ReaderProperties.RouteNeverRaisesAtMkdir | utils/reader.py:73 | with `mkdir` called as intended, the route goes on to do what `RouteSpec` says and does not raise there |
| ReaderProperties.RouteRaisesAtMkdirAsWritten | utils/reader.py:73 | with the misspelt keyword, every route raises at `mkdir` with no writer and changes nothing |
| ReaderProperties.MergeNeverRaisesAtMkdir | utils/reader.py:73 | with `mkdir` called as intended, no report of the run is a `mkdir` error |
| ReaderProperties.MergeAsWrittenRaisesAtOnce | utils/reader.py:70-73 | as written, the run changes no file, and a non-empty routing map ends with the first route's `mkdir` error as its only report |
| ReaderProperties.ExampleGlob | utils/reader.py:77-80 | one file in `silver`, route silver→gold: the globs find just that file |
| ReaderProperties.ExampleCandidates | utils/reader.py:77-82 | the same store offers exactly that file as candidate |
| ReaderProperties.ExampleRead | utils/reader.py:95-109 | its one batch of two rows is read and accepted, with no failure |
| ReaderProperties.ExampleDelete | utils/reader.py:123-124 | after writing the output, unlinking the candidate leaves only the output |
| ReaderProperties.MkdirTypoMergesNothing | utils/reader.py:73 | that store: as written the run raises at `mkdir` and changes nothing; as intended it completes with 2 rows from 1 file and leaves only the consolidated output |
| Reader.Store.WriteFile | utils/reader.py:102-108 | the output file's content is replaced and a new file is listed |
| Reader.Store.Unlink | utils/reader.py:124 | an existing file is removed from the store and the listing; a missing one is reported and nothing changes |
| Reader.Store.WriteBatches | utils/reader.py:98-109 | the batches of one file go into the lazily created writer with rows counted; a batch with another schema stops it, and the writer holds exactly what it accepted |
| Reader.Store.ReadAll | utils/reader.py:94-111 | the exception raised is the one the stream determines (a refused batch or the first file that fails); the writer holds what it accepted; with no exception, rows and files are counted |
| Reader.Store.DeleteCandidates | utils/reader.py:123-124 | the unlink loop does to the store exactly what `DeleteAll` says, stopping at the first missing file |
| Reader.Store.MergeRoute | utils/reader.py:70-124 | one route, its `mkdir` call included, updates the store and reports exactly as `RouteRun` says |
| Reader.Store.MergeParquet | utils/reader.py:54-124 | the run updates the store and reports exactly as `MergeSpec` says, for the `mkdir` call as written and as intended |

## Left out

- Logging, and the `log_with_context` decorator (utils/config_logger.py), which logs an
  exception and re-raises it to the caller. The exception ending the run is modelled by the
  run stopping at its first `Raised` report.
- `move_files` (utils/reader.py:13-52) is not part of this model. Neither are the browser
  setup and the control base class.
- `batch_size` and the snappy compression: they change how the stream is cut and stored,
  not the rows.
- Arrow schemas are modelled as sequences of fields: name, type as an opaque string, and
  nullability. A writer refuses a table whose schema differs in any field. Schema
  metadata and type parameters beyond the type's name are not modelled.
- Directories as objects: a directory is a path prefix, and `mkdir` with the intended
  arguments always succeeds.
- The format of the returned date (`strftime`): `GetInfos.PenultimateDate` returns the raw
  value.
- Time zones and daylight-saving time: deadlines are on naive seconds.
- The SLA rules are a set the source never evaluates, so only the one rule's deadline is
  modelled.
- `pd.to_numeric` and `astype(int)` coercion: a box is already an optional integer.
  Fractional boxes are not modelled.
- `SetorRule.box_range`: an empty tuple `()` is falsy in the source. It is modelled as
  absent (`None`), which behaves identically.
- Exceptions are not modelled by type. Any failure to open or read a file is
  `ReadError`/`Unreadable`, because every such failure is handled the same way.

## Findings

| source | as written | input that shows it | evidently intended | confidence | as-written member | corrected member |
|---|---|---|---|---|---|---|
| utils/reader.py:73 | `dest_dir.mkdir(parens=True, exist_ok=True)`: `parens` is no keyword of `mkdir`, so the call raises `TypeError` before any file is read | one route `silver`→`gold` with `silver/a.parquet` holding 2 rows | `parents=True`: the route consolidates the 2 rows into `gold/silver_consolidated.parquet` and unlinks the source | high; not executed | ReaderProperties.MergeAsWrittenRaisesAtOnce, ReaderProperties.MkdirTypoMergesNothing | Reader.Store.MergeParquet (with ReaderProperties.MergeNeverRaisesAtMkdir) |
| utils/get_infos.py:43 | `pd.drop_null(array)` where `pd` is `pyarrow.parquet` (line 8), which has no `drop_null`: every batch raises and the handler answers `None` | a file with one batch of dates [1, 2] | `pc.drop_null` (`pyarrow.compute`, line 9): the answer is 1 | high; not executed | GetInfos.AsWrittenNeverAnswers, GetInfos.DropNullTypoHidesAnswer | GetInfos.PenultimateDate |
