/** The result sink: `writeResWorker` appends every record it receives to
    the output file, one open-append-close cycle per record, in arrival
    order; the file is never truncated, so runs accumulate. */
module Sink {
  import opened Strings

  /** The output file at the configured path. */
  class OutputFile {
    var contents: string

    constructor (initial: string)
      ensures contents == initial
    {
      contents := initial;
    }

    /** One os.OpenFile(O_CREATE|O_APPEND) followed by WriteString. */
    method Append(text: string)
      modifies this
      ensures contents == old(contents) + text
    {
      contents := contents + text;
    }
  }

  /** writeResWorker: appends the records in arrival order. */
  method WriteResWorker(out: OutputFile, records: seq<string>)
    modifies out
    ensures out.contents == old(out.contents) + Concat(records)
  {
    var i := 0;
    assert records[..0] == [];
    while i < |records|
      invariant 0 <= i <= |records|
      invariant out.contents == old(out.contents) + Concat(records[..i])
    {
      assert records[..i + 1] == records[..i] + [records[i]];
      ConcatAppend(records[..i], [records[i]]);
      assert Concat([records[i]]) == records[i] + Concat([]);
      out.Append(records[i]);
      i := i + 1;
    }
    assert records[..i] == records;
  }

  // ---------------------------------------------------------------------
  // Reading the output file back as lines
  // ---------------------------------------------------------------------

  /** Number of characters before the first newline. */
  function LineLength(t: string): (k: nat)
    ensures k <= |t|
    ensures forall i :: 0 <= i < k ==> t[i] != '\n'
    ensures k < |t| ==> t[k] == '\n'
  {
    if t == [] || t[0] == '\n' then 0 else 1 + LineLength(t[1..])
  }

  /** The lines of a text, each with its newline; a last line without a
      newline is kept as it is. */
  function Lines(t: string): seq<string>
    decreases |t|
  {
    if t == [] then []
    else
      var k := LineLength(t);
      if k == |t| then [t] else [t[..k + 1]] + Lines(t[k + 1..])
  }

  /** One complete line: ends in its only newline. */
  predicate IsLine(l: string) {
    l != [] && l[|l| - 1] == '\n' && forall i :: 0 <= i < |l| - 1 ==> l[i] != '\n'
  }

  /** Text made of complete lines only (possibly none). */
  predicate EndsWithNewline(t: string) {
    t == [] || t[|t| - 1] == '\n'
  }

  lemma {:induction false} LineLengthOfLine(l: string, t: string)
    requires IsLine(l)
    ensures LineLength(l + t) == |l| - 1
  {
    if |l| > 1 {
      assert (l + t)[1..] == l[1..] + t;
      LineLengthOfLine(l[1..], t);
    }
  }

  /** A complete line in front of a text is its first line. */
  lemma LinesOfLine(l: string, t: string)
    requires IsLine(l)
    ensures Lines(l + t) == [l] + Lines(t)
  {
    LineLengthOfLine(l, t);
    assert (l + t)[..|l|] == l;
    assert (l + t)[|l|..] == t;
  }

  /** A non-empty text of complete lines is its first line followed by
      complete lines. */
  lemma SplitFirstLine(a: string) returns (l: string, rest: string)
    requires a != [] && EndsWithNewline(a)
    ensures IsLine(l) && a == l + rest && EndsWithNewline(rest)
  {
    var k := LineLength(a);
    assert k < |a|;
    l, rest := a[..k + 1], a[k + 1..];
    if rest != [] {
      assert rest[|rest| - 1] == a[|a| - 1];
    }
  }

  /** Appending text after complete lines leaves those lines untouched:
      the lines of the result are the old lines followed by the new. */
  lemma {:induction false} LinesAppend(a: string, b: string)
    requires EndsWithNewline(a)
    ensures Lines(a + b) == Lines(a) + Lines(b)
    decreases |a|
  {
    if a == [] {
      assert a + b == b;
    } else {
      var l, rest := SplitFirstLine(a);
      calc {
        Lines(a + b);
      == { assert a + b == l + (rest + b); }
        Lines(l + (rest + b));
      == { LinesOfLine(l, rest + b); }
        [l] + Lines(rest + b);
      == { LinesAppend(rest, b); }
        [l] + (Lines(rest) + Lines(b));
      == { LinesOfLine(l, rest); }
        Lines(a) + Lines(b);
      }
    }
  }

  /** The file written from complete record lines reads back as exactly
      those lines, in order. */
  lemma {:induction false} LinesOfConcat(rs: seq<string>)
    requires forall k :: 0 <= k < |rs| ==> IsLine(rs[k])
    ensures Lines(Concat(rs)) == rs
  {
    if rs != [] {
      LinesOfConcat(rs[1..]);
      LinesOfLine(rs[0], Concat(rs[1..]));
      assert rs == [rs[0]] + rs[1..];
    }
  }

  /** Concatenated complete lines are complete lines. */
  lemma {:induction false} ConcatEndsWithNewline(rs: seq<string>)
    requires forall k :: 0 <= k < |rs| ==> IsLine(rs[k])
    ensures EndsWithNewline(Concat(rs))
  {
    if rs != [] {
      ConcatEndsWithNewline(rs[1..]);
      var rest := Concat(rs[1..]);
      if rest != [] {
        assert (rs[0] + rest)[|rs[0] + rest| - 1] == rest[|rest| - 1];
      }
    }
  }
}
