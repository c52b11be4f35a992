/** The workload sources: `buildDDLStmt`, which turns the lines of an index
    recommendation file into CREATE INDEX statements, and `readQuery`, which
    reads the numbered query files of a directory. Each sends its
    statements down a channel, modelled as the sequence it appends to. */
module Source {
  import opened Faults
  import opened Strings
  import opened Format

  // ---------------------------------------------------------------------
  // buildDDLStmt
  // ---------------------------------------------------------------------

  /** How many lines the builder turns into statements: `n` capped by the
      number of lines, and none when `n` is not positive. */
  function Limit(n: int, available: nat): (m: nat)
    ensures m <= available
    ensures n <= 0 ==> m == 0
    ensures 0 <= n <= available ==> m == n
    ensures n > available ==> m == available
  {
    if n <= 0 then 0 else if available < n then available else n
  }

  /** The statement for the line at 1-based `position` whose fields are
      table (with its trailing character, a colon, dropped), clause and an
      ignored third field. */
  function DdlStatement(position: nat, fields: seq<string>): string
    requires |fields| == 3 && fields[0] != []
  {
    "create index virtual_index_" + Decimal(position) + " on "
      + fields[0][..|fields[0]| - 1] + fields[1] + ";"
  }

  /** The statements for lines `i .. m-1`, stopping with a split error at
      the first line that does not have exactly three fields. */
  function DdlFrom(lines: seq<string>, i: nat, m: nat): Produced
    requires i <= m <= |lines|
    decreases m - i
  {
    if i == m then Produced([], None)
    else
      var fields := Fields(lines[i]);
      if |fields| != 3 then Produced([], Some(SplitError))
      else After([DdlStatement(i + 1, fields)], DdlFrom(lines, i + 1, m))
  }

  /** `stmts` are the statements for the lines from `i` on, one per line. */
  ghost predicate StatementsOfLines(lines: seq<string>, i: nat, stmts: seq<string>) {
    forall k :: 0 <= k < |stmts| ==> StatementOfLine(lines, i + k, stmts[k])
  }

  /** `stmt` is the statement built from line `j` (0-based), which has three fields. */
  ghost predicate StatementOfLine(lines: seq<string>, j: nat, stmt: string) {
    j < |lines| && |Fields(lines[j])| == 3 && stmt == DdlStatement(j + 1, Fields(lines[j]))
  }

  /** `r` is what the builder sends for lines `i .. m-1`: one statement per
      well-formed line in order, and a split error exactly at the first
      malformed line. */
  ghost predicate BuildsFrom(lines: seq<string>, i: nat, m: nat, r: Produced) {
    && i <= m <= |lines|
    && |r.stmts| <= m - i
    && StatementsOfLines(lines, i, r.stmts)
    && (r.fault.None? <==> |r.stmts| == m - i)
    && (r.fault.Some? ==> r.fault == Some(SplitError) && |Fields(lines[i + |r.stmts|])| != 3)
  }

  lemma {:induction false} DdlFromMeaning(lines: seq<string>, i: nat, m: nat)
    requires i <= m <= |lines|
    ensures BuildsFrom(lines, i, m, DdlFrom(lines, i, m))
    decreases m - i
  {
    if i < m && |Fields(lines[i])| == 3 {
      var stmt := DdlStatement(i + 1, Fields(lines[i]));
      assert DdlFrom(lines, i, m) == After([stmt], DdlFrom(lines, i + 1, m));
      DdlFromMeaning(lines, i + 1, m);
      BuildsFromCons(lines, i, m, stmt, DdlFrom(lines, i + 1, m));
    }
  }

  /** A well-formed line `i` puts its statement in front of what the
      lines after it build. */
  lemma BuildsFromCons(lines: seq<string>, i: nat, m: nat, stmt: string, rest: Produced)
    requires i < m && StatementOfLine(lines, i, stmt)
    requires BuildsFrom(lines, i + 1, m, rest)
    ensures BuildsFrom(lines, i, m, After([stmt], rest))
  {
    StatementsOfLinesCons(lines, i, stmt, rest.stmts);
    assert i + 1 + |rest.stmts| == i + |[stmt] + rest.stmts|;
  }

  /** A statement for line `i` in front of statements for the lines after it. */
  lemma StatementsOfLinesCons(lines: seq<string>, i: nat, stmt: string, rest: seq<string>)
    requires StatementOfLine(lines, i, stmt)
    requires StatementsOfLines(lines, i + 1, rest)
    ensures StatementsOfLines(lines, i, [stmt] + rest)
  {
    var stmts := [stmt] + rest;
    forall k | 0 <= k < |stmts|
      ensures StatementOfLine(lines, i + k, stmts[k])
    {
      if k > 0 {
        assert stmts[k] == rest[k - 1];
        assert i + 1 + (k - 1) == i + k;
      }
    }
  }

  /** What buildDDLStmt sends for the recommendation `lines` and top-n `n`. */
  function BuildDdl(lines: seq<string>, n: int): Produced {
    DdlFrom(lines, 0, Limit(n, |lines|))
  }

  /** The builder emits exactly `Limit(n, |lines|)` statements when each of
      the first that many lines has three fields and fails with a split
      error otherwise; the statement at 1-based position `i` names
      `virtual_index_<i>` and is built from line `i`. */
  lemma BuildDdlMeaning(lines: seq<string>, n: int)
    ensures |BuildDdl(lines, n).stmts| <= Limit(n, |lines|)
    ensures BuildDdl(lines, n).fault.None? <==> |BuildDdl(lines, n).stmts| == Limit(n, |lines|)
    ensures BuildDdl(lines, n).fault.None? <==>
              forall k :: 0 <= k < Limit(n, |lines|) ==> |Fields(lines[k])| == 3
    ensures BuildDdl(lines, n).fault.Some? ==> BuildDdl(lines, n).fault == Some(SplitError)
    ensures StatementsOfLines(lines, 0, BuildDdl(lines, n).stmts)
  {
    var m, r := Limit(n, |lines|), BuildDdl(lines, n);
    DdlFromMeaning(lines, 0, m);
    if r.fault.Some? {
      assert |r.stmts| < m && |Fields(lines[0 + |r.stmts|])| != 3;
    } else {
      forall k | 0 <= k < m ensures |Fields(lines[k])| == 3 {
        assert StatementOfLine(lines, 0 + k, r.stmts[k]);
      }
    }
  }

  /** A line holding the fields `f0`, `f1`, `f2`, separated by any
      non-empty runs of white space and with any white space around them,
      splits into exactly those three fields. Its statement names index
      `virtual_index_<i>` on `f0` without its last character, followed by
      `f1`; the third field never reaches the output, and `f0` is never
      empty so the cut is safe. */
  lemma DdlStatementOfLine(line: string, lead: string, f0: string, s1: string, f1: string, s2: string,
                           f2: string, trail: string, position: nat)
    requires IsWord(f0) && IsWord(f1) && IsWord(f2)
    requires s1 != [] && IsBlank(s1) && s2 != [] && IsBlank(s2)
    requires IsBlank(lead) && IsBlank(trail)
    requires line == lead + (f0 + s1 + (f1 + s2 + (f2 + trail)))
    ensures Fields(line) == [f0, f1, f2]
    ensures DdlStatement(position, Fields(line))
         == "create index virtual_index_" + Decimal(position) + " on " + f0[..|f0| - 1] + f1 + ";"
  {
    FieldsOfThree(line, lead, f0, s1, f1, s2, f2, trail);
  }

  lemma {:induction false} DdlFromPrefix(lines: seq<string>, other: seq<string>, i: nat, m: nat)
    requires i <= m <= |lines| && m <= |other|
    requires lines[..m] == other[..m]
    ensures DdlFrom(lines, i, m) == DdlFrom(other, i, m)
    decreases m - i
  {
    if i < m {
      assert lines[i] == lines[..m][i] && other[i] == other[..m][i];
      DdlFromPrefix(lines, other, i + 1, m);
    }
  }

  /** Lines at or beyond the limit are never inspected: the builder gives
      the same result when the file is cut after the first `Limit` lines,
      whatever those later lines hold. */
  lemma BuildDdlReadsOnlyPrefix(lines: seq<string>, n: int)
    ensures BuildDdl(lines, n) == BuildDdl(lines[..Limit(n, |lines|)], n)
  {
    var m := Limit(n, |lines|);
    assert Limit(n, m) == m;
    DdlFromPrefix(lines, lines[..m], 0, m);
  }

  lemma ExampleFields()
    ensures Fields("orders: (o_orderkey) 5") == ["orders:", "(o_orderkey)", "5"]
  {
    var line := "orders: (o_orderkey) 5";
    assert line == [] + ("orders:" + " " + ("(o_orderkey)" + " " + ("5" + [])));
    FieldsOfThree(line, [], "orders:", " ", "(o_orderkey)", " ", "5", []);
  }

  /** A recommendation line separated by a tab and by two blanks gives the
      same fields, and so the same statement, as the single-space one. */
  lemma TabSeparatedExample(line: string)
    requires line == "orders:\t(o_orderkey)  5"
    ensures Fields(line) == ["orders:", "(o_orderkey)", "5"]
    ensures DdlStatement(1, Fields(line)) == "create index virtual_index_1 on orders(o_orderkey);"
  {
    assert line == [] + ("orders:" + "\t" + ("(o_orderkey)" + "  " + ("5" + [])));
    FieldsOfThree(line, [], "orders:", "\t", "(o_orderkey)", "  ", "5", []);
    ExampleStatement();
  }

  lemma ExampleStatement()
    ensures DdlStatement(1, ["orders:", "(o_orderkey)", "5"])
         == "create index virtual_index_1 on orders(o_orderkey);"
  {
    assert Decimal(1) == "1";
    assert "orders:"[..6] == "orders";
    assert "create index virtual_index_" + "1" + " on " + "orders" + "(o_orderkey)" + ";"
        == "create index virtual_index_1 on orders(o_orderkey);";
  }

  /** The worked example: one row `orders: (o_orderkey) 5`, top-n 1. */
  lemma BuildDdlExample(lines: seq<string>)
    requires lines == ["orders: (o_orderkey) 5"]
    ensures BuildDdl(lines, 1) == Produced(["create index virtual_index_1 on orders(o_orderkey);"], None)
  {
    var stmt := "create index virtual_index_1 on orders(o_orderkey);";
    assert DdlStatement(1, Fields(lines[0])) == stmt by {
      ExampleFields();
      ExampleStatement();
    }
    assert DdlFrom(lines, 1, 1) == Produced([], None);
    assert DdlFrom(lines, 0, 1) == After([stmt], Produced([], None));
  }

  /** buildDDLStmt: sends one statement per line, in order, and panics with
      a split error at the first malformed line among the first `n`. */
  method BuildDdlStmt(lines: seq<string>, n: int) returns (sent: seq<string>, fault: Option<Fault>)
    ensures Produced(sent, fault) == BuildDdl(lines, n)
  {
    var m := if |lines| < n then |lines| else n;
    sent, fault := [], None;
    var i := 0;
    while i < m
      invariant 0 <= i <= Limit(n, |lines|)
      invariant m <= 0 || m == Limit(n, |lines|)
      invariant BuildDdl(lines, n) == After(sent, DdlFrom(lines, i, Limit(n, |lines|)))
    {
      var fields := Fields(lines[i]);
      if |fields| != 3 {
        fault := Some(SplitError);
        return;
      }
      var stmt := DdlStatement(i + 1, fields);
      ghost var rest := DdlFrom(lines, i + 1, Limit(n, |lines|));
      assert DdlFrom(lines, i, Limit(n, |lines|)) == After([stmt], rest);
      AfterAfter(sent, stmt, rest);
      sent := sent + [stmt];
      i := i + 1;
    }
  }

  // ---------------------------------------------------------------------
  // readQuery and exists
  // ---------------------------------------------------------------------

  /** What a path names: a file whose contents can be read, or one that
      exists (os.Stat succeeds) but cannot be read (a directory, no
      permission). */
  datatype Entry = Readable(contents: string) | Unreadable

  /** The file system as the source sees it: the entry count of each
      readable directory, and the entries that exist. */
  datatype FileSystem = FileSystem(dirs: map<string, nat>, files: map<string, Entry>)

  /** exists(file): os.Stat on the path succeeds. */
  predicate Exists(fs: FileSystem, path: string) {
    path in fs.files
  }

  /** The path of query file `i`: plain concatenation, no separator added. */
  function SqlPath(readPath: string, i: nat): string {
    readPath + Decimal(i) + ".sql"
  }

  /** Different numbers name different files. */
  lemma SqlPathInjective(readPath: string, i: nat, j: nat)
    requires SqlPath(readPath, i) == SqlPath(readPath, j)
    ensures i == j
  {
    var p, q := SqlPath(readPath, i), SqlPath(readPath, j);
    assert |Decimal(i)| == |Decimal(j)|;
    assert Decimal(i) == p[|readPath|..|p| - 4];
    assert Decimal(j) == q[|readPath|..|q| - 4];
    DecimalInjective(i, j);
  }

  /** The numbers `i .. n` whose query file exists, in increasing order. */
  function ExistingIndices(fs: FileSystem, readPath: string, i: nat, n: nat): (r: seq<nat>)
    ensures forall k :: 0 <= k < |r| ==> i <= r[k] <= n && Exists(fs, SqlPath(readPath, r[k]))
    ensures forall k, l :: 0 <= k < l < |r| ==> r[k] < r[l]
    ensures forall j :: i <= j <= n && Exists(fs, SqlPath(readPath, j)) ==> j in r
    decreases n + 1 - i
  {
    if i > n then []
    else if Exists(fs, SqlPath(readPath, i)) then [i] + ExistingIndices(fs, readPath, i + 1, n)
    else ExistingIndices(fs, readPath, i + 1, n)
  }

  /** At most one number per candidate in `i .. n`. */
  lemma {:induction false} ExistingIndicesBound(fs: FileSystem, readPath: string, i: nat, n: nat)
    requires i <= n + 1
    ensures |ExistingIndices(fs, readPath, i, n)| <= n + 1 - i
    decreases n + 1 - i
  {
    if i <= n {
      ExistingIndicesBound(fs, readPath, i + 1, n);
    }
  }

  /** What the loop of readQuery sends for the numbers `i .. n`. */
  function ScanFrom(fs: FileSystem, readPath: string, i: nat, n: nat): Produced
    decreases n + 1 - i
  {
    if i > n then Produced([], None)
    else
      var p := SqlPath(readPath, i);
      if !Exists(fs, p) then ScanFrom(fs, readPath, i + 1, n)
      else match fs.files[p]
        case Unreadable => Produced([], Some(ReadFailed(p)))
        case Readable(contents) => After([contents], ScanFrom(fs, readPath, i + 1, n))
  }

  /** `r` is what reading the existing query files numbered `ix` sends:
      the k-th statement is the contents of the k-th file, and a read
      failure stops it exactly at the first file that cannot be read. */
  ghost predicate ReadsInOrder(fs: FileSystem, readPath: string, ix: seq<nat>, r: Produced) {
    && |r.stmts| <= |ix|
    && (forall k :: 0 <= k < |r.stmts| ==> ReadsFile(fs, SqlPath(readPath, ix[k]), r.stmts[k]))
    && (r.fault.None? <==> |r.stmts| == |ix|)
    && (r.fault.Some? ==> FailsToRead(fs, SqlPath(readPath, ix[|r.stmts|]), r.fault.value))
  }

  ghost predicate ReadsFile(fs: FileSystem, path: string, contents: string) {
    path in fs.files && fs.files[path] == Readable(contents)
  }

  ghost predicate FailsToRead(fs: FileSystem, path: string, fault: Fault) {
    path in fs.files && fs.files[path] == Unreadable && fault == ReadFailed(path)
  }

  lemma {:induction false} ScanFromMeaning(fs: FileSystem, readPath: string, i: nat, n: nat)
    ensures ReadsInOrder(fs, readPath, ExistingIndices(fs, readPath, i, n), ScanFrom(fs, readPath, i, n))
    decreases n + 1 - i
  {
    if i <= n {
      ScanFromMeaning(fs, readPath, i + 1, n);
      var p := SqlPath(readPath, i);
      var ix' := ExistingIndices(fs, readPath, i + 1, n);
      if Exists(fs, p) {
        match fs.files[p]
        case Unreadable =>
          ReadsInOrderFailure(fs, readPath, i, ix');
        case Readable(contents) =>
          ReadsInOrderCons(fs, readPath, i, contents, ix', ScanFrom(fs, readPath, i + 1, n));
      }
    }
  }

  /** An unreadable first file stops the scan before anything is sent. */
  lemma ReadsInOrderFailure(fs: FileSystem, readPath: string, i: nat, ix: seq<nat>)
    requires SqlPath(readPath, i) in fs.files && fs.files[SqlPath(readPath, i)] == Unreadable
    ensures ReadsInOrder(fs, readPath, [i] + ix, Produced([], Some(ReadFailed(SqlPath(readPath, i)))))
  {
    assert ([i] + ix)[0] == i;
  }

  /** A readable first file puts its contents in front of the rest of the scan. */
  lemma ReadsInOrderCons(fs: FileSystem, readPath: string, i: nat, contents: string, ix: seq<nat>, r: Produced)
    requires ReadsFile(fs, SqlPath(readPath, i), contents)
    requires ReadsInOrder(fs, readPath, ix, r)
    ensures ReadsInOrder(fs, readPath, [i] + ix, After([contents], r))
  {
    var ix', r' := [i] + ix, After([contents], r);
    forall k | 0 <= k < |r'.stmts|
      ensures ReadsFile(fs, SqlPath(readPath, ix'[k]), r'.stmts[k])
    {
      if k > 0 {
        assert ix'[k] == ix[k - 1] && r'.stmts[k] == r.stmts[k - 1];
      }
    }
    if r'.fault.Some? {
      assert ix'[|r'.stmts|] == ix[|r.stmts|];
    }
  }

  /** What readQuery sends for the directory `readPath`: the contents of
      `readPath<i>.sql` for every `i` from 1 to the directory's entry count
      whose file exists, in increasing `i`; missing numbers are skipped. */
  function Workload(fs: FileSystem, readPath: string): Produced {
    if readPath !in fs.dirs then Produced([], Some(ReadDirFailed(readPath)))
    else ScanFrom(fs, readPath, 1, fs.dirs[readPath])
  }

  /** A readable directory whose existing numbered files are all readable
      yields exactly one statement per existing number, in increasing order. */
  lemma WorkloadOfReadableFiles(fs: FileSystem, readPath: string)
    requires readPath in fs.dirs
    requires forall p :: p in fs.files ==> fs.files[p].Readable?
    ensures Workload(fs, readPath).fault == None
    ensures ReadsInOrder(fs, readPath, ExistingIndices(fs, readPath, 1, fs.dirs[readPath]), Workload(fs, readPath))
  {
    ScanFromMeaning(fs, readPath, 1, fs.dirs[readPath]);
  }

  /** The sparse example: entries 1.sql and 3.sql among three, 2.sql
      missing, gives the two statements of files 1 and 3, in that order. */
  lemma SparseWorkloadExample(first: string, third: string)
    ensures Workload(FileSystem(map["q/" := 3],
                                map["q/1.sql" := Readable(first), "q/3.sql" := Readable(third)]),
                     "q/")
         == Produced([first, third], None)
  {
    var fs := FileSystem(map["q/" := 3], map["q/1.sql" := Readable(first), "q/3.sql" := Readable(third)]);
    assert SqlPath("q/", 1) == "q/1.sql" by { assert Decimal(1) == "1"; }
    assert SqlPath("q/", 2) == "q/2.sql" by { assert Decimal(2) == "2"; }
    assert SqlPath("q/", 3) == "q/3.sql" by { assert Decimal(3) == "3"; }
    assert !Exists(fs, "q/2.sql");
    assert ScanFrom(fs, "q/", 4, 3) == Produced([], None);
  }

  /** readQuery: for i = 1 .. n (the directory's entry count) sends the
      contents of each existing query file; panics when the directory
      cannot be listed or an existing file cannot be read. */
  method ReadQuery(fs: FileSystem, readPath: string) returns (sent: seq<string>, fault: Option<Fault>)
    ensures Produced(sent, fault) == Workload(fs, readPath)
  {
    sent, fault := [], None;
    if readPath !in fs.dirs {
      fault := Some(ReadDirFailed(readPath));
      return;
    }
    var n := fs.dirs[readPath];
    var i := 1;
    while i <= n
      invariant 1 <= i <= n + 1
      invariant Workload(fs, readPath) == After(sent, ScanFrom(fs, readPath, i, n))
    {
      var sqlFile := readPath + Decimal(i) + ".sql";
      if Exists(fs, sqlFile) {
        match fs.files[sqlFile]
        case Unreadable =>
          fault := Some(ReadFailed(sqlFile));
          return;
        case Readable(contents) =>
          sent := sent + [contents];
      }
      i := i + 1;
    }
  }
}
