# Index-advisor benchmark harness, modelled in Dafny

The harness runs a directory of SQL workload files against a database, one
statement at a time. It measures each statement and appends one timing line
per statement to a results file. `main` does this twice, into
`EXEC_ORIGIN` and then `EXEC_ADDIDX`. A second entry point,
`AddVirutalIndex`, reads an index-recommendation file. It turns the first
`n` lines into `create index virtual_index_<i> on <table><columns>;`
statements and runs them the same way.

The Go program joins three stages with buffered channels:

- a **source**, either `readQuery` or `buildDDLStmt`;
- the **executor**, `worker` with `exec` and `runQuery`;
- the **sink**, `writeResWorker`.

The model keeps the three stages and their order and drops the concurrency.

- Each source is a method whose loop appends to the sequence it sends
  (`Source.ReadQuery`, `Source.BuildDdlStmt`). Each is proved equal to a
  recursive specification function (`Source.Workload`, `Source.BuildDdl`).
  Lemmas then prove what those functions mean.
- The executor is a method with the counter loop (`Executor.Worker`). It is
  proved equal to `Executor.Execute`. `Executor.ExecuteMeaning` states that
  function's meaning: routing, counters, FIFO order and fail-fast.
- The sink is a class `Sink.OutputFile` whose `contents` field the
  appending loop `Sink.WriteResWorker` grows.
- The orchestrators (`Pipeline.ExecQuery`, `Pipeline.AddVirtualIndex`,
  `Pipeline.Benchmark` for `main`) call the three stages in sequence.

The database and the clock around it are one oracle of type
`Executor.Database`. It receives the history of earlier calls and the
current call (interface plus statement text). It returns either the
elapsed-time text or a failure. The file system is a value
`Source.FileSystem` with two parts:

- the entry count of each readable directory;
- the entries that exist, each readable with contents or unreadable.

Module layout:

- `Faults`: the panics of the harness, and what a source produces;
- `Strings`: `strings.Fields`, `ToLower`, `HasPrefix`, joining;
- `Format`: `strconv.Itoa` and `%-10d`;
- `Source`, `Executor`, `Sink`, `Pipeline`: the stages and their composition.

Runes, not bytes, are the unit of strings. A Go panic is a `Fault` value
that ends the run.

## Model

| member | source | states |
|---|---|---|
| Source.BuildDdl | main.go:107-127 | what the builder sends for `lines` and top-n `n`: `DdlFrom` over the first `Limit(n, len(lines))` lines. `BuildDdlMeaning` characterises it |
| Source.DdlFrom | main.go:119-126 | the statements for lines `i..m-1`, one per line, stopping with a split error at the first line without 3 fields. `DdlFromMeaning` characterises it |
| Source.DdlStatement | main.go:124-126 | the `Sprintf` of one statement from a 1-based position and a line's 3 fields. `DdlStatementOfLine` states it in terms of the line's text |
| Source.Limit | main.go:115-117 | the number of lines used is `n` capped by the line count, and zero when `n` is not positive |
| Source.BuildDdlMeaning | main.go:115-126 | the builder emits at most `min(n, len(lines))` statements. It emits exactly that many iff each of the first that many lines splits into 3 fields; otherwise the fault is the split error. The k-th statement is built from line k and names `virtual_index_<k+1>` |
| Source.DdlFromMeaning | main.go:119-126 | from line `i`, one statement per well-formed line in order. The split error comes exactly at the first line without 3 fields |
| Source.BuildDdlReadsOnlyPrefix | main.go:115-123 | the result depends only on the first `min(n, len(lines))` lines: later lines are never inspected |
| Source.DdlStatementOfLine | main.go:120-126 | a line holding fields `f0`, `f1`, `f2` (no white space inside them), separated by any non-empty runs of white space and with any white space around them, splits into exactly those fields. Its statement is `create index virtual_index_<i> on ` + `f0` minus its last rune + `f1` + `;`. The third field does not occur, and the cut is in bounds |
| Source.BuildDdlExample | main.go:119-126 | the line `orders: (o_orderkey) 5` with `n = 1` gives `create index virtual_index_1 on orders(o_orderkey);` |
| Source.TabSeparatedExample | main.go:120-126 | the line `orders:<tab>(o_orderkey)<two blanks>5` has the same 3 fields and statement as its single-space form |
| Source.BuildDdlStmt | main.go:107-128 | the loop with early exit sends exactly what `BuildDdl` specifies, statements and fault |
| Source.Exists | main.go:237-246 | `exists(file)`: the path is an entry of the file system, readable or not (`os.Stat` succeeds) |
| Source.SqlPath | main.go:180 | the path `readPath + itoa(i) + ".sql"`, plain concatenation with no separator. `SqlPathInjective` characterises it |
| Source.SqlPathInjective | main.go:180 | distinct numbers give distinct paths `readPath + itoa(i) + ".sql"`, so no file is read twice |
| Source.ExistingIndices | main.go:177-181 | the numbers from `i` to `n` whose file exists, strictly increasing. Every such number is included |
| Source.ExistingIndicesBound | main.go:177 | at most one number per candidate in `i..n` |
| Source.ScanFrom | main.go:177-189 | the statements the loop of `readQuery` sends for the numbers `i..n`, skipping missing files and stopping at an unreadable one. `ScanFromMeaning` characterises it |
| Source.Workload | main.go:169-190 | what `readQuery` sends: a listing failure, or `ScanFrom` over `1..` the directory's entry count. `WorkloadOfReadableFiles` and `ScanFromMeaning` characterise it |
| Source.ScanFromMeaning | main.go:177-189 | the k-th statement sent is the contents of the k-th existing file in increasing number. Missing numbers are skipped without error. An unreadable file stops the scan with a read failure naming it |
| Source.WorkloadOfReadableFiles | main.go:169-190 | a listable directory whose files are all readable yields no fault and one statement per existing number in `1..entries`, in order |
| Source.SparseWorkloadExample | main.go:177-189 | with 3 entries and only `1.sql` and `3.sql` present, the sent statements are the two files' contents, in that order |
| Source.ReadQuery | main.go:169-190 | the loop sends exactly what `Workload` specifies. An unlistable directory fails before anything is sent |
| Strings.Fields | main.go:120 | every field is non-empty and free of white space. Where it splits is stated by `FieldsOfWordThenSpace` and `FieldsSkipLeadingSpace` |
| Strings.FieldsOfWordThenSpace | main.go:120 | a field ends exactly where white space or the text begins: a field in front of such a text is split off whole, never merged with what follows |
| Strings.FieldsOfWordThen | main.go:120 | any non-empty run of white space (one blank, a tab, several) separates two fields |
| Strings.FieldsOfBlank | main.go:120 | white space alone has no fields |
| Strings.FieldsOfThree | main.go:120-121 | three fields with any non-empty white space between them and any around them split into exactly 3 fields, so the 3-field test accepts them |
| Strings.FieldsCoverNonSpaces | main.go:120 | the fields, joined, are exactly the non-white-space runes of the line, in order |
| Strings.FieldsOfUnwords | main.go:120 | splitting a space-joined list of fields gives that list back |
| Strings.FieldsSkipLeadingSpace | main.go:120 | leading white space does not change the fields |
| Strings.ToLower | main.go:209 | same length, each rune lowered |
| Format.Decimal | main.go:180 | `strconv.Itoa` / `%d`: non-empty, digits only, no leading zero except for 0. `ParseDecimalOfDecimal` gives its inverse |
| Format.ParseDecimalOfDecimal | main.go:180 | the decimal rendering of a number reads back as that number |
| Format.DecimalInjective | main.go:180 | different numbers render differently |
| Format.DecimalWidth | main.go:219 | a number below 10^k has at most k digits |
| Format.PadRight | main.go:219 | `%-10d` padding: length `max(width, len)`, the text first, then blanks only |
| Executor.IsQuery | main.go:209-210 | the lower-cased text starts with `select`. `IsQueryMeaning` characterises it |
| Executor.Route | main.go:209-210 | the call keeps the statement text as received. It uses the query interface iff the lower-cased text starts with `select` |
| Executor.IsQueryMeaning | main.go:209-210 | classification is iff: at least 6 runes whose lower-case forms are `s`,`e`,`l`,`e`,`c`,`t` |
| Executor.RouteIgnoresCase | main.go:209-210 | statements equal up to ASCII case are routed the same way |
| Executor.RouteExamples | main.go:224-235 | `SELECT 1` and `select 1` go to Query, `update t` goes to Exec |
| Executor.FormatRecord | main.go:219 | `%-10d%f\n` with the elapsed part as text. `RecordLayout` and `RecordRoundTrip` characterise it |
| Executor.RecordLayout | main.go:219 | a record is the counter's digits, blanks up to column 10 (none past 10 digits), the elapsed text and a newline |
| Executor.RecordRoundTrip | main.go:219 | for counters below 10^9 and elapsed texts not starting with a blank, parsing a record gives back counter and elapsed text |
| Executor.WideCountersAreAmbiguous | main.go:219 | from 10 digits on there is no separator: two different (counter, elapsed) pairs render to the same line |
| Executor.Exec | main.go:208-222 | a record is formatted iff the database accepts the routed call, with the counter and the measured time. Otherwise the run aborts with the database's error |
| Executor.Execute | main.go:192-222 | the executor's run over a statement sequence: calls, records and the fault if any. `ExecuteMeaning` characterises it |
| Executor.ExecuteMeaning | main.go:192-222 | statements are submitted in receive order, each through its routed interface, at most once. The k-th success gives the record with counter `first+k`. The run has a fault iff some statement failed; the failing statement is the last submitted and yields no record |
| Executor.Worker | main.go:192-206 | the counter loop (counter from 1, incremented before each statement) produces exactly `Execute(stmts, history, 1, db)` |
| Sink.OutputFile.Append | main.go:159-165 | one open-append-write: the contents become the old contents followed by the text |
| Sink.WriteResWorker | main.go:152-167 | the file becomes its old contents followed by the records, in arrival order |
| Sink.LinesAppend | main.go:159-165 | appending to a file that ends in a newline keeps all its lines and adds the new ones after them |
| Sink.LinesOfConcat | main.go:152-167 | a file written from complete lines splits back into exactly those lines |
| Pipeline.RunOf | main.go:65-84 | the executor's run over what a source produced, with nothing executed after a source panic. `RunOfMeaning` characterises it |
| Pipeline.Recommended | main.go:107-113 | what `buildDDLStmt` sends when the recommendation file is missing (open failure) or read. `BuildDdlMeaning` characterises the second case |
| Pipeline.RunOfMeaning | main.go:65-84 | a pipeline run is fault-free iff the source sent everything and every statement got a record. A source panic executes nothing. Otherwise the run satisfies `ExecutesInOrder` |
| Pipeline.ExecQuery | main.go:65-84 | read, execute and sink in sequence: the run is `RunOf(Workload(...))`, and the output file gains exactly its records |
| Pipeline.AddVirtualIndex | main.go:86-105 | the same composition with the DDL builder as source. An unopenable recommendation file fails before anything runs |
| Pipeline.Benchmark | main.go:51-63 | the workload runs into the origin file and then, if nothing aborted, once more into the second file after the first run's calls, listing and reading the file system as it is after the first run |
| Pipeline.OutputInWorkloadDirExample | main.go:172-181 | with `1.sql` and `3.sql` among 2 entries only `1.sql` is read; once the first run's output file is a third entry, `3.sql` is read as well |
| Pipeline.RecordIsLine | main.go:219 | a record's only newline is its last rune |
| Pipeline.RecordsReadBack | main.go:192-222 | with fewer than 10^9 statements, the records written split back into exactly those lines. The k-th parses to counter k+1 and the elapsed text of the k-th call |
| Pipeline.LogAccumulates | main.go:159-165 | a run appended to a file of complete lines leaves the earlier lines first, unchanged, and the file still ends in a newline |
| Pipeline.DdlStatementsUseExec | main.go:126 | every statement the DDL builder sends is routed to the Exec interface |
| Pipeline.DdlStatementStartsWithCreate | main.go:126 | every DDL statement starts with `c` |
| Pipeline.CleanRunLogsEveryQuery | main.go:65-84 | a loadable workload against an always-accepting database writes one line per existing query file after the unchanged earlier lines |
| Pipeline.AlwaysReplies | main.go:192-222 | when no statement fails, there is one record per statement and no fault |
| Pipeline.SparseRunExample | main.go:194-204 | with files `1.sql` and `3.sql`, the records carry counters 1 and 2: counters number statements, not files |

## Left out

- Flag parsing, `init` and `sql.Open` (main.go:21-48): configuration only. The database is the oracle `Executor.Database`.
- Goroutines, the 10000-slot channel buffers, `sync.WaitGroup` and the close-then-wait shutdown: the stages run one after another over whole sequences.
- Schedules after a panic. In Go a panic ends the process while the other goroutines are at unknown points. The model picks one schedule for each case:
  - a source panic (unlistable directory, unreadable file, unopenable recommendation file, split error) executes nothing: the stages run in sequence, so the source finishes before the executor starts, although Go may already have executed some statements sent before it;
  - a database failure leaves every earlier record written, although in Go the sink may not have written them yet.
- `time.Now` and the `%f` rendering of the elapsed seconds: the elapsed text is opaque, part of the oracle's reply. `Pipeline.PrintsElapsed` states the only assumption made about it (no leading blank, no newline).
- `db.Query` and `db.Exec`: only the choice between them and their success or failure are modelled. The rows of `db.Query` are never read or closed in Go either.
- `os.Stat`, `ioutil.ReadDir`, `ioutil.ReadFile`: modelled by the `Source.FileSystem` value. `exists` is entry membership. The `os.IsExist` branch of `exists` never makes a failing `Stat` count as existing, so it is not modelled separately.
- `readFile` with `bufio.ReadLine`: the recommendation lines are an input, with `None` for a file that cannot be opened. Its endless loop on a non-EOF read error and its splitting of over-long lines are not modelled.
- `os.OpenFile` failing in the sink, and the ignored `WriteString` error: appending always succeeds.
- The deferred `fd.Close` calls that pile up inside the sink loop: there are no file handles in the model.
- Printing to stdout (main.go:51-62, main.go:202-203).
- `path.Join` in `main`: the two output files are two distinct `Sink.OutputFile` objects.
- Pipeline.Benchmark: the file system the second run reads (`fsAfter`) is an input. The model does not derive it from the first run. So it does not state that the first run's output file becomes an entry of the workload directory when `-res` names that directory; `Pipeline.OutputInWorkloadDirExample` shows what such an entry changes.
- Executor.Worker: the Go counter is a `uint64`; the model's counter is unbounded, so wrap-around after 2^64 statements is not modelled.
- Source.DdlStatement: Go cuts the last byte of the table field and the model cuts the last rune. The two agree when that character is ASCII, as the `:` of the recommendation format is.
- Strings.ToLower: only ASCII letters are folded. No other rune lower-cases to a letter of `select`, so the query test is exact.
- AddVirutalIndex is named `AddVirtualIndex` in the model.
