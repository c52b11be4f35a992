/** Values shared by the pipeline's stages: optional values, the reasons a
    run can be aborted, and what a workload source hands to the executor. */
module Faults {

  datatype Option<+T> = None | Some(value: T)

  /** Every `panic` of the harness, by cause. */
  datatype Fault =
    | ReadDirFailed(dir: string)   // ioutil.ReadDir on the workload directory failed
    | ReadFailed(path: string)     // a workload file exists but ioutil.ReadFile failed
    | OpenFailed                   // the recommendation file could not be opened
    | SplitError                   // a recommendation line does not have three fields
    | DbError(reason: string)      // the database rejected a statement

  /** What a source sends down its channel before closing it or panicking:
      the statements in send order, and the panic if there was one. */
  datatype Produced = Produced(stmts: seq<string>, fault: Option<Fault>)

  /** The statements and fault of `rest`, after `stmts` were already sent. */
  function After(stmts: seq<string>, rest: Produced): Produced {
    Produced(stmts + rest.stmts, rest.fault)
  }

  /** Sending `stmt` after `stmts` is sending `stmts + [stmt]`. */
  lemma AfterAfter(stmts: seq<string>, stmt: string, rest: Produced)
    ensures After(stmts, After([stmt], rest)) == After(stmts + [stmt], rest)
  {
    assert stmts + ([stmt] + rest.stmts) == stmts + [stmt] + rest.stmts;
  }
}
