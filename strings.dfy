/** The parts of Go's `strings` package the harness relies on: `Fields`,
    `ToLower`, `HasPrefix`, and joining a list of strings. Strings are
    sequences of runes. */
module Strings {

  /** unicode.IsSpace: the Unicode White_Space characters. */
  predicate IsSpace(c: char) {
    || c == ' '
    || ('\t' <= c <= '\r')
    || c == '\U{85}' || c == '\U{A0}' || c == '\U{1680}'
    || ('\U{2000}' <= c <= '\U{200A}')
    || c == '\U{2028}' || c == '\U{2029}' || c == '\U{202F}' || c == '\U{205F}' || c == '\U{3000}'
  }

  /** A field as `strings.Fields` yields it: non-empty, no white space. */
  predicate IsWord(w: string) {
    w != [] && forall i :: 0 <= i < |w| ==> !IsSpace(w[i])
  }

  /** Length of the longest prefix of `s` that holds no white space. */
  function WordLength(s: string): (k: nat)
    ensures k <= |s|
    ensures forall i :: 0 <= i < k ==> !IsSpace(s[i])
    ensures k < |s| ==> IsSpace(s[k])
  {
    if s == [] || IsSpace(s[0]) then 0 else 1 + WordLength(s[1..])
  }

  /** strings.Fields: the maximal runs of non-white-space characters, in order. */
  function Fields(s: string): (r: seq<string>)
    ensures forall k :: 0 <= k < |r| ==> IsWord(r[k])
    decreases |s|
  {
    if s == [] then []
    else if IsSpace(s[0]) then Fields(s[1..])
    else
      var k := WordLength(s);
      [s[..k]] + Fields(s[k..])
  }

  /** The characters of `s` that are not white space, in order. */
  function NonSpaces(s: string): string {
    if s == [] then []
    else (if IsSpace(s[0]) then [] else [s[0]]) + NonSpaces(s[1..])
  }

  /** strings.Join(ss, ""). */
  function Concat(ss: seq<string>): string {
    if ss == [] then [] else ss[0] + Concat(ss[1..])
  }

  /** strings.Join(ws, " "). */
  function Unwords(ws: seq<string>): string {
    if ws == [] then []
    else if |ws| == 1 then ws[0]
    else ws[0] + " " + Unwords(ws[1..])
  }

  lemma {:induction false} ConcatAppend(a: seq<string>, b: seq<string>)
    ensures Concat(a + b) == Concat(a) + Concat(b)
  {
    if a == [] {
      assert a + b == b;
    } else {
      assert (a + b)[1..] == a[1..] + b;
      ConcatAppend(a[1..], b);
    }
  }

  lemma {:induction false} NonSpacesAppend(a: string, b: string)
    ensures NonSpaces(a + b) == NonSpaces(a) + NonSpaces(b)
  {
    if a == [] {
      assert a + b == b;
    } else {
      assert (a + b)[1..] == a[1..] + b;
      NonSpacesAppend(a[1..], b);
    }
  }

  lemma {:induction false} NonSpacesOfWord(w: string)
    requires forall i :: 0 <= i < |w| ==> !IsSpace(w[i])
    ensures NonSpaces(w) == w
  {
    if w != [] {
      NonSpacesOfWord(w[1..]);
    }
  }

  /** No character is lost or reordered by splitting: the fields, put back
      together, are exactly the non-white-space characters of the input. */
  lemma {:induction false} FieldsCoverNonSpaces(s: string)
    ensures Concat(Fields(s)) == NonSpaces(s)
    decreases |s|
  {
    if s == [] {
    } else if IsSpace(s[0]) {
      FieldsCoverNonSpaces(s[1..]);
    } else {
      var k := WordLength(s);
      assert s == s[..k] + s[k..];
      FieldsCoverNonSpaces(s[k..]);
      NonSpacesAppend(s[..k], s[k..]);
      NonSpacesOfWord(s[..k]);
    }
  }

  /** A run of white space in front of the text changes none of its fields. */
  lemma {:induction false} FieldsSkipLeadingSpace(sp: string, s: string)
    requires forall i :: 0 <= i < |sp| ==> IsSpace(sp[i])
    ensures Fields(sp + s) == Fields(s)
  {
    if sp != [] {
      assert (sp + s)[1..] == sp[1..] + s;
      FieldsSkipLeadingSpace(sp[1..], s);
    } else {
      assert sp + s == s;
    }
  }

  lemma {:induction false} WordLengthOfWord(w: string, t: string)
    requires IsWord(w)
    requires t == [] || IsSpace(t[0])
    ensures WordLength(w + t) == |w|
  {
    if |w| > 1 {
      assert (w + t)[1..] == w[1..] + t;
      WordLengthOfWord(w[1..], t);
    } else {
      assert (w + t)[1..] == t;
    }
  }

  /** Text made of white space only (possibly none). */
  predicate IsBlank(s: string) {
    forall i :: 0 <= i < |s| ==> IsSpace(s[i])
  }

  /** A field ends where white space (or the text) begins: a field in
      front of such a text is split off as the first field. */
  lemma FieldsOfWordThenSpace(w: string, t: string)
    requires IsWord(w)
    requires t == [] || IsSpace(t[0])
    ensures Fields(w + t) == [w] + Fields(t)
  {
    WordLengthOfWord(w, t);
    assert (w + t)[..|w|] == w;
    assert (w + t)[|w|..] == t;
  }

  /** Any non-empty run of white space separates two fields: a field,
      a separator and more text split as the field and the fields of the
      text. */
  lemma FieldsOfWordThen(w: string, sep: string, rest: string)
    requires IsWord(w)
    requires sep != [] && IsBlank(sep)
    ensures Fields(w + sep + rest) == [w] + Fields(rest)
  {
    assert w + sep + rest == w + (sep + rest);
    FieldsOfWordThenSpace(w, sep + rest);
    FieldsSkipLeadingSpace(sep, rest);
  }

  /** White space alone has no fields. */
  lemma FieldsOfBlank(t: string)
    requires IsBlank(t)
    ensures Fields(t) == []
  {
    FieldsSkipLeadingSpace(t, []);
    assert t + [] == t;
  }

  /** A last field followed by white space only is the only field. */
  lemma FieldsOfOne(f: string, trail: string)
    requires IsWord(f) && IsBlank(trail)
    ensures Fields(f + trail) == [f]
  {
    FieldsOfWordThenSpace(f, trail);
    FieldsOfBlank(trail);
  }

  /** A line made of three fields with any non-empty white space between
      them and any white space around them,
      `line == lead + f0 + s1 + f1 + s2 + f2 + trail`, splits into exactly
      those three fields. */
  lemma FieldsOfThree(line: string, lead: string, f0: string, s1: string, f1: string, s2: string,
                      f2: string, trail: string)
    requires IsWord(f0) && IsWord(f1) && IsWord(f2)
    requires s1 != [] && IsBlank(s1) && s2 != [] && IsBlank(s2)
    requires IsBlank(lead) && IsBlank(trail)
    requires line == lead + (f0 + s1 + (f1 + s2 + (f2 + trail)))
    ensures Fields(line) == [f0, f1, f2]
  {
    var rest := f1 + s2 + (f2 + trail);
    FieldsSkipLeadingSpace(lead, f0 + s1 + rest);
    FieldsOfWordThen(f0, s1, rest);
    FieldsOfWordThen(f1, s2, f2 + trail);
    FieldsOfOne(f2, trail);
  }

  /** Splitting undoes joining with single spaces: `Fields` and `Unwords` are
      inverse on lists of fields. */
  lemma {:induction false} FieldsOfUnwords(ws: seq<string>)
    requires forall k :: 0 <= k < |ws| ==> IsWord(ws[k])
    ensures Fields(Unwords(ws)) == ws
  {
    if ws == [] {
    } else if |ws| == 1 {
      var w := ws[0];
      WordLengthOfWord(w, []);
      assert w + [] == w;
      assert w[|w|..] == [];
      assert w[..|w|] == w;
    } else {
      FieldsOfWordThen(ws[0], " ", Unwords(ws[1..]));
      FieldsOfUnwords(ws[1..]);
      assert ws == [ws[0]] + ws[1..];
    }
  }

  /** unicode.ToLower on ASCII letters; every other rune is kept. */
  function Lower(c: char): char {
    if 'A' <= c <= 'Z' then (c as int + 32) as char else c
  }

  /** strings.ToLower (letters outside ASCII are not folded). */
  function ToLower(s: string): (r: string)
    ensures |r| == |s|
    ensures forall i :: 0 <= i < |s| ==> r[i] == Lower(s[i])
  {
    if s == [] then [] else [Lower(s[0])] + ToLower(s[1..])
  }

  /** strings.HasPrefix. */
  predicate HasPrefix(s: string, prefix: string) {
    |prefix| <= |s| && s[..|prefix|] == prefix
  }
}
