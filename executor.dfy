/** The executor: `worker` takes statements one at a time in the order it
    receives them, counts them from 1, and has `exec` classify each one,
    submit it through the query or the exec interface of the database
    (`runQuery`), and format a timing record for each statement that
    succeeds. A failing statement panics and ends the run. */
module Executor {
  import opened Faults
  import opened Strings
  import opened Format

  /** The two database interfaces: db.Query for reads, db.Exec otherwise. */
  datatype Api = QueryApi | ExecApi

  /** One submission to the database: the interface used and the statement
      text exactly as received (not lower-cased). */
  datatype Call = Call(api: Api, stmt: string)

  /** What one database call gives back, with the elapsed wall-clock time
      the harness measured around it, rendered as `%f` renders seconds. */
  datatype Reply = Replied(elapsed: string) | Failed(reason: string)

  /** The database, with the clock around it: its reply to a call may
      depend on every call submitted before it. */
  type Database = (seq<Call>, Call) -> Reply

  /** Width of the counter column of a timing record (`%-10d`). */
  const RECORD_WIDTH: nat := 10

  // ---------------------------------------------------------------------
  // Classification and routing (exec, runQuery)
  // ---------------------------------------------------------------------

  /** A statement goes through the query interface when its lower-cased
      text starts with "select". */
  predicate IsQuery(stmt: string) {
    HasPrefix(ToLower(stmt), "select")
  }

  /** runQuery's choice of interface for a statement. */
  function Route(stmt: string): (c: Call)
    ensures c.stmt == stmt
    ensures c.api == QueryApi <==> IsQuery(stmt)
  {
    Call(if IsQuery(stmt) then QueryApi else ExecApi, stmt)
  }

  /** The classification is the case-insensitive test of the first six
      characters against "select". */
  lemma IsQueryMeaning(stmt: string)
    ensures IsQuery(stmt) <==> 6 <= |stmt| && forall i :: 0 <= i < 6 ==> Lower(stmt[i]) == "select"[i]
  {
    var low := ToLower(stmt);
    if 6 <= |stmt| && forall i :: 0 <= i < 6 ==> Lower(stmt[i]) == "select"[i] {
      assert low[..6] == "select";
    }
  }

  /** Statements that differ only in the case of ASCII letters are routed
      the same way. */
  lemma RouteIgnoresCase(s: string, t: string)
    requires |s| == |t|
    requires forall i :: 0 <= i < |s| ==> Lower(s[i]) == Lower(t[i])
    ensures Route(s).api == Route(t).api
  {
    assert ToLower(s) == ToLower(t);
  }

  /** "SELECT ..." and "select ..." are both queries; "update ..." is not. */
  lemma RouteExamples(upper: string, lower: string, update: string)
    requires upper == "SELECT 1" && lower == "select 1" && update == "update t"
    ensures Route(upper).api == QueryApi && Route(lower).api == QueryApi
    ensures Route(update).api == ExecApi
  {
    IsQueryMeaning(lower);
    assert forall i :: 0 <= i < 6 ==> Lower(lower[i]) == "select"[i];
    RouteIgnoresCase(upper, lower);
    assert ToLower(update)[0] == 'u';
  }

  // ---------------------------------------------------------------------
  // Timing records
  // ---------------------------------------------------------------------

  /** A timing record: the run-local counter and the elapsed-time text. */
  datatype TimingRecord = TimingRecord(counter: nat, elapsed: string)

  /** `fmt.Sprintf("%-10d%f\n", cnt, spend)`, the elapsed part given as text. */
  function FormatRecord(cnt: nat, elapsed: string): string {
    PadRight(Decimal(cnt), RECORD_WIDTH) + elapsed + "\n"
  }

  /** The layout of a record line: the counter's digits, spaces up to
      column 10 (none when the counter is 10 or more digits long), the
      elapsed text, and a newline. */
  lemma RecordLayout(cnt: nat, elapsed: string)
    ensures var d, r := Decimal(cnt), FormatRecord(cnt, elapsed);
      var w := if |d| < RECORD_WIDTH then RECORD_WIDTH else |d|;
      && |r| == w + |elapsed| + 1
      && r[..|d|] == d
      && (forall i :: |d| <= i < w ==> r[i] == ' ')
      && r[w..|r| - 1] == elapsed
      && r[|r| - 1] == '\n'
  {
    var d, r := Decimal(cnt), FormatRecord(cnt, elapsed);
    var p := PadRight(d, RECORD_WIDTH);
    assert r == p + elapsed + "\n";
    assert r[..|d|] == p[..|d|];
    assert r[|p|..|r| - 1] == elapsed;
  }

  /** Length of the longest prefix made of decimal digits. */
  function DigitRun(s: string): (k: nat)
    ensures k <= |s|
    ensures forall i :: 0 <= i < k ==> IsDigit(s[i])
    ensures k < |s| ==> !IsDigit(s[k])
  {
    if s == [] || !IsDigit(s[0]) then 0 else 1 + DigitRun(s[1..])
  }

  /** Length of the longest prefix made of blanks. */
  function BlankRun(s: string): (k: nat)
    ensures k <= |s|
    ensures forall i :: 0 <= i < k ==> s[i] == ' '
    ensures k < |s| ==> s[k] != ' '
  {
    if s == [] || s[0] != ' ' then 0 else 1 + BlankRun(s[1..])
  }

  /** Reads one line of the output file back: leading digits are the
      counter, the blanks after them are padding, and the rest up to the
      final newline is the elapsed text. */
  function ParseRecord(line: string): Option<TimingRecord> {
    var d := DigitRun(line);
    if d == 0 || line[|line| - 1] != '\n' then None
    else
      var rest := line[d..|line| - 1];
      Some(TimingRecord(ParseDecimal(line[..d]), rest[BlankRun(rest)..]))
  }

  /** Elapsed text that reads back unchanged: it does not start with a
      blank and holds no newline (true of any `%f` rendering). */
  predicate IsElapsedText(e: string) {
    (e == [] || e[0] != ' ') && forall i :: 0 <= i < |e| ==> e[i] != '\n'
  }

  /** Parsing a record line gives back the counter and the elapsed text,
      as long as the counter is narrower than its column (below 10^9). */
  lemma RecordRoundTrip(cnt: nat, elapsed: string)
    requires cnt < 1_000_000_000
    requires elapsed == [] || elapsed[0] != ' '
    ensures ParseRecord(FormatRecord(cnt, elapsed)) == Some(TimingRecord(cnt, elapsed))
  {
    var d, r := Decimal(cnt), FormatRecord(cnt, elapsed);
    assert Pow10(9) == 1_000_000_000;
    DecimalWidth(cnt, 9);
    RecordLayout(cnt, elapsed);
    assert r[|d|] == ' ';
    DigitRunExact(r, |d|);
    assert r[..|d|] == d;
    ParseDecimalOfDecimal(cnt);
    var rest := r[|d|..|r| - 1];
    RecordTail(cnt, elapsed);
    BlankRunExact(rest, RECORD_WIDTH - |d|);
    assert rest[RECORD_WIDTH - |d|..] == elapsed;
  }

  /** Behind a counter narrower than its column: the padding blanks, then
      the elapsed text. */
  lemma RecordTail(cnt: nat, elapsed: string)
    requires |Decimal(cnt)| < RECORD_WIDTH
    ensures FormatRecord(cnt, elapsed)[|Decimal(cnt)|..|FormatRecord(cnt, elapsed)| - 1]
         == seq(RECORD_WIDTH - |Decimal(cnt)|, _ => ' ') + elapsed
  {
    var d, r := Decimal(cnt), FormatRecord(cnt, elapsed);
    var blanks := seq(RECORD_WIDTH - |d|, _ => ' ');
    assert PadRight(d, RECORD_WIDTH) == d + blanks;
    assert r == d + (blanks + elapsed) + "\n";
  }

  lemma {:induction false} DigitRunExact(s: string, k: nat)
    requires k <= |s|
    requires forall i :: 0 <= i < k ==> IsDigit(s[i])
    requires k < |s| ==> !IsDigit(s[k])
    ensures DigitRun(s) == k
  {
    if k > 0 {
      DigitRunExact(s[1..], k - 1);
    }
  }

  lemma {:induction false} BlankRunExact(s: string, k: nat)
    requires k <= |s|
    requires forall i :: 0 <= i < k ==> s[i] == ' '
    requires k < |s| ==> s[k] != ' '
    ensures BlankRun(s) == k
  {
    if k > 0 {
      BlankRunExact(s[1..], k - 1);
    }
  }

  /** Once the counter reaches ten digits there is no padding left, and
      different (counter, elapsed) pairs render to the same line. */
  lemma WideCountersAreAmbiguous()
    ensures FormatRecord(1234567890, "15.000000") == FormatRecord(12345678901, "5.000000")
  {
    assert Decimal(1234567890) == "1234567890";
    assert Decimal(12345678901) == "12345678901";
  }

  // ---------------------------------------------------------------------
  // exec and worker
  // ---------------------------------------------------------------------

  /** What exec does with one statement: a record line, or the panic. */
  datatype Outcome = Recorded(record: string) | Aborted(fault: Fault)

  /** exec: route the statement, submit it after the `history` of earlier
      calls, and on success format the record for counter `cnt`. */
  function Exec(history: seq<Call>, stmt: string, cnt: nat, db: Database): (o: Outcome)
    ensures o.Aborted? <==> db(history, Route(stmt)).Failed?
    ensures o.Aborted? ==> o.fault == DbError(db(history, Route(stmt)).reason)
    ensures o.Recorded? ==> o.record == FormatRecord(cnt, db(history, Route(stmt)).elapsed)
  {
    match db(history, Route(stmt))
    case Failed(reason) => Aborted(DbError(reason))
    case Replied(elapsed) => Recorded(FormatRecord(cnt, elapsed))
  }

  /** What an executor run leaves behind: the calls submitted, in order,
      the record lines sent to the sink, in order, and the panic if any. */
  datatype Run = Run(calls: seq<Call>, records: seq<string>, fault: Option<Fault>)

  /** `r` with `calls` and `records` in front. */
  function Continue(calls: seq<Call>, records: seq<string>, r: Run): Run {
    Run(calls + r.calls, records + r.records, r.fault)
  }

  /** The executor run over `stmts`, after the calls `history`, numbering
      statements from `first`. */
  function Execute(stmts: seq<string>, history: seq<Call>, first: nat, db: Database): Run
    decreases |stmts|
  {
    if stmts == [] then Run([], [], None)
    else
      var call := Route(stmts[0]);
      match Exec(history, stmts[0], first, db)
      case Aborted(fault) => Run([call], [], Some(fault))
      case Recorded(record) => Continue([call], [record], Execute(stmts[1..], history + [call], first + 1, db))
  }

  /** The database accepted `call` after `history` and `record` is its
      line for counter `cnt`. */
  ghost predicate RecordFor(history: seq<Call>, call: Call, cnt: nat, db: Database, record: string) {
    db(history, call).Replied? && record == FormatRecord(cnt, db(history, call).elapsed)
  }

  /** The database rejected `call` after `history`, giving `fault`. */
  ghost predicate FailsWith(history: seq<Call>, call: Call, db: Database, fault: Fault) {
    db(history, call).Failed? && fault == DbError(db(history, call).reason)
  }

  /** `r` is the executor's run over `stmts`: every statement up to the
      first failing one is submitted, in order and through the interface
      its classification picks; the k-th submitted statement that succeeds
      yields the record with counter `first + k`; the run stops at the
      first failure, which yields no record. */
  ghost predicate ExecutesInOrder(stmts: seq<string>, history: seq<Call>, first: nat, db: Database, r: Run) {
    && |r.calls| <= |stmts|
    && (forall k :: 0 <= k < |r.calls| ==> r.calls[k] == Route(stmts[k]))
    && |r.records| == |r.calls| - (if r.fault.Some? then 1 else 0)
    && (r.fault.None? <==> |r.records| == |stmts|)
    && (forall k :: 0 <= k < |r.records| ==>
          RecordFor(history + r.calls[..k], r.calls[k], first + k, db, r.records[k]))
    && (r.fault.Some? ==>
          FailsWith(history + r.calls[..|r.records|], r.calls[|r.records|], db, r.fault.value))
  }

  lemma {:induction false} ExecuteMeaning(stmts: seq<string>, history: seq<Call>, first: nat, db: Database)
    ensures ExecutesInOrder(stmts, history, first, db, Execute(stmts, history, first, db))
    decreases |stmts|
  {
    if stmts != [] {
      var call := Route(stmts[0]);
      match db(history, call)
      case Replied(elapsed) =>
        ExecuteMeaning(stmts[1..], history + [call], first + 1, db);
        ExecutesAfterSuccess(stmts, history, first, db, FormatRecord(first, elapsed),
                             Execute(stmts[1..], history + [call], first + 1, db));
      case Failed(reason) =>
        ExecutesFailure(stmts, history, first, db, DbError(reason));
    }
  }

  /** A first statement that fails ends the run with no record. */
  lemma ExecutesFailure(stmts: seq<string>, history: seq<Call>, first: nat, db: Database, fault: Fault)
    requires stmts != []
    requires FailsWith(history, Route(stmts[0]), db, fault)
    ensures ExecutesInOrder(stmts, history, first, db, Run([Route(stmts[0])], [], Some(fault)))
  {
    assert [Route(stmts[0])][..0] == [];
    assert history + [] == history;
  }

  /** A first statement that succeeds puts its call and record in front of
      the run over the remaining statements. */
  lemma ExecutesAfterSuccess(stmts: seq<string>, history: seq<Call>, first: nat, db: Database,
                             record: string, rest: Run)
    requires stmts != []
    requires RecordFor(history, Route(stmts[0]), first, db, record)
    requires ExecutesInOrder(stmts[1..], history + [Route(stmts[0])], first + 1, db, rest)
    ensures ExecutesInOrder(stmts, history, first, db, Continue([Route(stmts[0])], [record], rest))
  {
    var call := Route(stmts[0]);
    var r := Continue([call], [record], rest);
    forall k | 0 <= k < |r.calls|
      ensures r.calls[k] == Route(stmts[k])
    {
      if k > 0 {
        assert r.calls[k] == rest.calls[k - 1];
      }
    }
    forall k | 0 <= k < |r.records|
      ensures RecordFor(history + r.calls[..k], r.calls[k], first + k, db, r.records[k])
    {
      if k == 0 {
        assert r.calls[..0] == [];
        assert history + [] == history;
      } else {
        assert r.calls[k] == rest.calls[k - 1] && r.records[k] == rest.records[k - 1];
        HistoryShift(history, call, rest.calls, k);
      }
    }
    if r.fault.Some? {
      var j := |r.records|;
      assert r.calls[j] == rest.calls[j - 1];
      HistoryShift(history, call, rest.calls, j);
    }
  }

  /** Sending `calls`/`records` and then a run is sending their concatenations. */
  lemma ContinueTwice(calls: seq<Call>, records: seq<string>, call: Call, record: string, r: Run)
    ensures Continue(calls, records, Continue([call], [record], r)) == Continue(calls + [call], records + [record], r)
  {
    assert calls + ([call] + r.calls) == calls + [call] + r.calls;
    assert records + ([record] + r.records) == records + [record] + r.records;
  }

  /** The history before the k-th call of a run that began with `call`. */
  lemma HistoryShift(history: seq<Call>, call: Call, rest: seq<Call>, k: nat)
    requires 1 <= k <= |rest| + 1
    ensures history + ([call] + rest)[..k] == (history + [call]) + rest[..k - 1]
  {
    assert ([call] + rest)[..k] == [call] + rest[..k - 1];
  }

  /** One step of the executor: the statement at `i` is executed after the
      calls so far, and what follows is the run over the rest. */
  lemma ExecuteStep(stmts: seq<string>, i: nat, history: seq<Call>, calls: seq<Call>, records: seq<string>,
                    cnt: nat, db: Database)
    requires i < |stmts|
    ensures Exec(history + calls, stmts[i], cnt, db).Aborted? ==>
              (Continue(calls, records, Execute(stmts[i..], history + calls, cnt, db))
               == Run(calls + [Route(stmts[i])], records, Some(Exec(history + calls, stmts[i], cnt, db).fault)))
    ensures Exec(history + calls, stmts[i], cnt, db).Recorded? ==>
              (Continue(calls, records, Execute(stmts[i..], history + calls, cnt, db))
               == Continue(calls + [Route(stmts[i])], records + [Exec(history + calls, stmts[i], cnt, db).record],
                           Execute(stmts[i + 1..], history + (calls + [Route(stmts[i])]), cnt + 1, db)))
  {
    var call := Route(stmts[i]);
    assert stmts[i..][0] == stmts[i] && stmts[i..][1..] == stmts[i + 1..];
    assert history + calls + [call] == history + (calls + [call]);
    match Exec(history + calls, stmts[i], cnt, db)
    case Aborted(fault) =>
    case Recorded(record) =>
      ContinueTwice(calls, records, call, record, Execute(stmts[i + 1..], history + (calls + [call]), cnt + 1, db));
  }

  /** worker: counts from 1 the statements it receives and has each
      executed in receive order; stops at the first failing one. */
  method Worker(stmts: seq<string>, history: seq<Call>, db: Database) returns (run: Run)
    ensures run == Execute(stmts, history, 1, db)
  {
    var calls: seq<Call>, records: seq<string> := [], [];
    var cnt: nat := 0;
    var i := 0;
    assert stmts[0..] == stmts && history + [] == history;
    while i < |stmts|
      invariant 0 <= i <= |stmts| && cnt == i
      invariant Execute(stmts, history, 1, db)
             == Continue(calls, records, Execute(stmts[i..], history + calls, cnt + 1, db))
    {
      var query := stmts[i];
      cnt := cnt + 1;
      ExecuteStep(stmts, i, history, calls, records, cnt, db);
      match Exec(history + calls, query, cnt, db)
      case Aborted(fault) =>
        return Run(calls + [Route(query)], records, Some(fault));
      case Recorded(record) =>
        calls, records := calls + [Route(query)], records + [record];
      i := i + 1;
    }
    assert stmts[i..] == [];
    run := Run(calls, records, None);
  }
}
