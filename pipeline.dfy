/** The orchestration: `ExecQuery` and `AddVirutalIndex` connect a source,
    the executor and the sink through two queues and return once the sink
    has drained; `main` runs the workload twice, into EXEC_ORIGIN and then
    into EXEC_ADDIDX. The three stages run one after the other here, each
    consuming the whole sequence the previous one sent. */
module Pipeline {
  import opened Faults
  import opened Strings
  import opened Format
  import opened Source
  import opened Executor
  import opened Sink

  /** The executor's run over what a source produced. A source that
      panicked ends the process with nothing executed; otherwise the
      executor runs over every statement, counting from 1. */
  function RunOf(p: Produced, history: seq<Call>, db: Database): Run {
    if p.fault.Some? then Run([], [], p.fault) else Execute(p.stmts, history, 1, db)
  }

  /** A run ends without a fault exactly when the source sent everything
      and every statement succeeded; then there is one record per
      statement, and every record and call is the executor's. Each
      statement is submitted at most once and in send order. */
  lemma RunOfMeaning(p: Produced, history: seq<Call>, db: Database)
    ensures RunOf(p, history, db).fault.None? <==>
              p.fault.None? && |RunOf(p, history, db).records| == |p.stmts|
    ensures p.fault.Some? ==> RunOf(p, history, db) == Run([], [], p.fault)
    ensures p.fault.None? ==> ExecutesInOrder(p.stmts, history, 1, db, RunOf(p, history, db))
  {
    ExecuteMeaning(p.stmts, history, 1, db);
  }

  /** ExecQuery: runs the workload of directory `infile` and appends its
      timing records to `out`. */
  method ExecQuery(fs: FileSystem, infile: string, out: OutputFile, history: seq<Call>, db: Database)
    returns (run: Run)
    modifies out
    ensures run == RunOf(Workload(fs, infile), history, db)
    ensures out.contents == old(out.contents) + Concat(run.records)
  {
    var queries, fault := ReadQuery(fs, infile);
    if fault.Some? {
      return Run([], [], fault);
    }
    run := Worker(queries, history, db);
    WriteResWorker(out, run.records);
  }

  /** What buildDDLStmt sends when readFile gave `recommendation` (None:
      the file could not be opened). */
  function Recommended(recommendation: Option<seq<string>>, n: int): Produced {
    if recommendation.None? then Produced([], Some(OpenFailed)) else BuildDdl(recommendation.value, n)
  }

  /** AddVirutalIndex: submits the first `n` recommended indexes as
      CREATE INDEX statements and appends their timing records to `out`. */
  method AddVirtualIndex(recommendation: Option<seq<string>>, n: int, out: OutputFile,
                         history: seq<Call>, db: Database)
    returns (run: Run)
    modifies out
    ensures run == RunOf(Recommended(recommendation, n), history, db)
    ensures out.contents == old(out.contents) + Concat(run.records)
  {
    if recommendation.None? {
      return Run([], [], Some(OpenFailed));
    }
    var stmts, fault := BuildDdlStmt(recommendation.value, n);
    if fault.Some? {
      return Run([], [], fault);
    }
    run := Worker(stmts, history, db);
    WriteResWorker(out, run.records);
  }

  /** main: the workload once into `origin`, then, if the first run did
      not abort the process, once more into `withIdx`, against the same
      database after the first run's calls. The second run lists and reads
      the file system `fsAfter` as it is after the first run: when the
      results directory is the workload directory, it holds the first
      run's output file as one more entry. */
  method Benchmark(fs: FileSystem, fsAfter: FileSystem, sqlFile: string, origin: OutputFile, withIdx: OutputFile,
                   db: Database)
    returns (first: Run, second: Option<Run>)
    requires origin != withIdx
    modifies origin, withIdx
    ensures first == RunOf(Workload(fs, sqlFile), [], db)
    ensures origin.contents == old(origin.contents) + Concat(first.records)
    ensures first.fault.Some? ==> second == None && withIdx.contents == old(withIdx.contents)
    ensures first.fault.None? ==>
              && second == Some(RunOf(Workload(fsAfter, sqlFile), first.calls, db))
              && withIdx.contents == old(withIdx.contents) + Concat(second.value.records)
  {
    first := ExecQuery(fs, sqlFile, origin, [], db);
    if first.fault.Some? {
      return first, None;
    }
    var r := ExecQuery(fsAfter, sqlFile, withIdx, first.calls, db);
    second := Some(r);
  }

  /** The entry count bounds the scan: with `1.sql` and `3.sql` among two
      entries only `1.sql` is read, but once the first run's output file is
      a third entry of the same directory, `3.sql` is read as well. */
  lemma OutputInWorkloadDirExample(fs: FileSystem, fsAfter: FileSystem, first: string, third: string)
    requires fs == FileSystem(map["q/" := 2], map["q/1.sql" := Readable(first), "q/3.sql" := Readable(third)])
    requires fsAfter == FileSystem(map["q/" := 3],
                                   map["q/1.sql" := Readable(first), "q/3.sql" := Readable(third),
                                       "q/EXEC_ORIGIN" := Readable("")])
    ensures Workload(fs, "q/") == Produced([first], None)
    ensures Workload(fsAfter, "q/") == Produced([first, third], None)
  {
    assert SqlPath("q/", 1) == "q/1.sql" by { assert Decimal(1) == "1"; }
    assert SqlPath("q/", 2) == "q/2.sql" by { assert Decimal(2) == "2"; }
    assert SqlPath("q/", 3) == "q/3.sql" by { assert Decimal(3) == "3"; }
    assert ScanFrom(fs, "q/", 3, 2) == Produced([], None);
    assert ScanFrom(fsAfter, "q/", 4, 3) == Produced([], None);
  }

  // ---------------------------------------------------------------------
  // Properties of the whole pipeline
  // ---------------------------------------------------------------------

  /** The database's elapsed texts are `%f` renderings: no leading blank,
      no newline. */
  ghost predicate PrintsElapsed(db: Database) {
    forall h, c :: db(h, c).Replied? ==> IsElapsedText(db(h, c).elapsed)
  }

  /** The k-th record of run `r` reads back as counter k+1 with the elapsed
      text the database gave for the k-th call. */
  ghost predicate ReadsBack(history: seq<Call>, db: Database, r: Run, k: nat) {
    && k < |r.records| && k < |r.calls|
    && db(history + r.calls[..k], r.calls[k]).Replied?
    && ParseRecord(r.records[k])
         == Some(TimingRecord(k + 1, db(history + r.calls[..k], r.calls[k]).elapsed))
  }

  /** A timing record is one complete line. */
  lemma RecordIsLine(cnt: nat, elapsed: string)
    requires IsElapsedText(elapsed)
    ensures IsLine(FormatRecord(cnt, elapsed))
  {
    var d, r := Decimal(cnt), FormatRecord(cnt, elapsed);
    RecordLayout(cnt, elapsed);
    var w := |r| - 1 - |elapsed|;
    forall i | 0 <= i < |r| - 1
      ensures r[i] != '\n'
    {
      if i < |d| {
        assert r[i] == d[i] && IsDigit(d[i]);
      } else if i >= w {
        assert r[i] == r[w..|r| - 1][i - w];
      }
    }
  }

  /** The records of a run over fewer than 10^9 statements are complete
      lines: the file they make splits back into exactly those lines, and
      each parses back as its 1-based position and the elapsed time of its
      statement. */
  lemma {:induction false} RecordsReadBack(stmts: seq<string>, history: seq<Call>, db: Database)
    requires |stmts| < 1_000_000_000
    requires PrintsElapsed(db)
    ensures forall k :: 0 <= k < |Execute(stmts, history, 1, db).records| ==>
              IsLine(Execute(stmts, history, 1, db).records[k])
    ensures Lines(Concat(Execute(stmts, history, 1, db).records)) == Execute(stmts, history, 1, db).records
    ensures forall k :: 0 <= k < |Execute(stmts, history, 1, db).records| ==>
              ReadsBack(history, db, Execute(stmts, history, 1, db), k)
  {
    var r := Execute(stmts, history, 1, db);
    ExecuteMeaning(stmts, history, 1, db);
    forall k | 0 <= k < |r.records|
      ensures IsLine(r.records[k]) && ReadsBack(history, db, r, k)
    {
      assert RecordFor(history + r.calls[..k], r.calls[k], 1 + k, db, r.records[k]);
      var e := db(history + r.calls[..k], r.calls[k]).elapsed;
      assert IsElapsedText(e);
      RecordIsLine(1 + k, e);
      RecordRoundTrip(1 + k, e);
    }
    LinesOfConcat(r.records);
  }

  /** The output file is only ever appended to: a run whose records all
      are lines, appended to a file of complete lines, leaves the earlier
      lines in place and adds its own after them. */
  lemma LogAccumulates(before: string, records: seq<string>)
    requires EndsWithNewline(before)
    requires forall k :: 0 <= k < |records| ==> IsLine(records[k])
    ensures Lines(before + Concat(records)) == Lines(before) + records
    ensures EndsWithNewline(before + Concat(records))
  {
    LinesAppend(before, Concat(records));
    LinesOfConcat(records);
    ConcatEndsWithNewline(records);
    var c := Concat(records);
    if c != [] {
      assert (before + c)[|before + c| - 1] == c[|c| - 1];
    }
  }

  /** Every statement buildDDLStmt sends is a CREATE INDEX statement, so
      each goes through the exec interface, never the query interface. */
  lemma DdlStatementsUseExec(recommendation: Option<seq<string>>, n: int)
    ensures forall k :: 0 <= k < |Recommended(recommendation, n).stmts| ==>
              Route(Recommended(recommendation, n).stmts[k]).api == ExecApi
  {
    if recommendation.Some? {
      var lines := recommendation.value;
      var stmts := BuildDdl(lines, n).stmts;
      BuildDdlMeaning(lines, n);
      forall k | 0 <= k < |stmts|
        ensures Route(stmts[k]).api == ExecApi
      {
        assert StatementOfLine(lines, 0 + k, stmts[k]);
        var s := stmts[k];
        assert s[0] == 'c' by {
          DdlStatementStartsWithCreate(k + 1, Fields(lines[k]));
        }
        IsQueryMeaning(s);
      }
    }
  }

  lemma DdlStatementStartsWithCreate(position: nat, fields: seq<string>)
    requires |fields| == 3 && fields[0] != []
    ensures DdlStatement(position, fields)[0] == 'c'
  {
    var prefix := "create index virtual_index_";
    var rest := Decimal(position) + " on " + fields[0][..|fields[0]| - 1] + fields[1] + ";";
    assert DdlStatement(position, fields) == prefix + rest;
  }

  /** A workload that loads and executes without error writes one line per
      query file into the output file, in file-number order, each carrying
      its position in the run. */
  lemma CleanRunLogsEveryQuery(fs: FileSystem, infile: string, before: string, db: Database)
    requires infile in fs.dirs && fs.dirs[infile] < 1_000_000_000
    requires forall p :: p in fs.files ==> fs.files[p].Readable?
    requires forall h, c :: db(h, c).Replied?
    requires PrintsElapsed(db)
    requires EndsWithNewline(before)
    ensures RunOf(Workload(fs, infile), [], db).fault == None
    ensures |RunOf(Workload(fs, infile), [], db).records| == |ExistingIndices(fs, infile, 1, fs.dirs[infile])|
    ensures Lines(before + Concat(RunOf(Workload(fs, infile), [], db).records))
         == Lines(before) + RunOf(Workload(fs, infile), [], db).records
  {
    var p := Workload(fs, infile);
    WorkloadOfReadableFiles(fs, infile);
    ExistingIndicesBound(fs, infile, 1, fs.dirs[infile]);
    assert |p.stmts| < 1_000_000_000;
    AlwaysReplies(p.stmts, [], 1, db);
    var r := Execute(p.stmts, [], 1, db);
    assert RunOf(p, [], db) == r;
    RecordsReadBack(p.stmts, [], db);
    LogAccumulates(before, r.records);
  }

  /** A database that accepts everything gives one record per statement. */
  lemma {:induction false} AlwaysReplies(stmts: seq<string>, history: seq<Call>, first: nat, db: Database)
    requires forall h, c :: db(h, c).Replied?
    ensures Execute(stmts, history, first, db).fault == None
    ensures |Execute(stmts, history, first, db).records| == |stmts|
    decreases |stmts|
  {
    if stmts != [] {
      AlwaysReplies(stmts[1..], history + [Route(stmts[0])], first + 1, db);
    }
  }

  /** Counters number statements, not files: with query files 1.sql and
      3.sql present among three entries and every statement accepted, the
      two records carry counters 1 and 2. */
  lemma SparseRunExample(fs: FileSystem, first: string, third: string, db: Database)
    requires fs == FileSystem(map["q/" := 3], map["q/1.sql" := Readable(first), "q/3.sql" := Readable(third)])
    requires forall h, c :: db(h, c).Replied?
    ensures RunOf(Workload(fs, "q/"), [], db).records
         == [FormatRecord(1, db([], Route(first)).elapsed),
             FormatRecord(2, db([Route(first)], Route(third)).elapsed)]
  {
    SparseWorkloadExample(first, third);
    var r := Execute([first, third], [], 1, db);
    assert [first, third][1..] == [third];
    assert [] + [Route(first)] == [Route(first)];
    assert Execute([third], [Route(first)], 2, db).records
        == [FormatRecord(2, db([Route(first)], Route(third)).elapsed)];
  }
}
