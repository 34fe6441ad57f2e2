/**
  Newline-separated text, as used by the ambiguous-selection diagnostic of the
  `mx` command: a header line followed by one line per candidate bean name.

  `JoinLines` is the text the command appends ("\n" before each name), and
  `Split` is an independent reader that cuts a text at every '\n'. The main
  result, `SplitJoin`, says that reading the text back yields the header and
  then exactly the names, in order.
 */
module Lines {

  /** A single line: a string with no newline character in it. */
  type Line = s: string | '\n' !in s

  /** "\n" + n0 + "\n" + n1 + ... : the text appended after the header. */
  function JoinLines(names: seq<Line>): string
  {
    if names == [] then "" else "\n" + names[0] + JoinLines(names[1..])
  }

  /** Position of the first newline of `s`, or `|s|` when there is none. */
  function LineEnd(s: string): (k: nat)
    ensures k <= |s|
    ensures forall i :: 0 <= i < k ==> s[i] != '\n'
    ensures k < |s| ==> s[k] == '\n'
  {
    if s == [] || s[0] == '\n' then 0 else 1 + LineEnd(s[1..])
  }

  /** Cuts `s` at every newline; a text with n newlines has n + 1 lines. */
  function Split(s: string): (lines: seq<Line>)
    ensures |lines| >= 1
    decreases |s|
  {
    var k := LineEnd(s);
    assert forall i :: 0 <= i < k ==> s[..k][i] != '\n';
    if k == |s| then [s] else [s[..k]] + Split(s[k + 1..])
  }

  /** A text without newline is read back as that single line. */
  lemma SplitSingle(t: Line)
    ensures Split(t) == [t]
  {
  }

  /** A line followed by a newline is read back as that line, then the rest. */
  lemma SplitAfterLine(t: Line, u: string)
    ensures Split(t + "\n" + u) == [t] + Split(u)
  {
    var s := t + "\n" + u;
    var k := LineEnd(s);
    assert s[|t|] == '\n';
    assert k == |t|;
    assert s[..k] == t;
    assert s[k + 1..] == u;
  }

  /** Reading back a header followed by the joined names gives the header and
      then every name, in order, one per line. */
  lemma {:induction false} SplitJoin(header: Line, names: seq<Line>)
    ensures Split(header + JoinLines(names)) == [header] + names
    decreases |names|
  {
    if names == [] {
      assert header + JoinLines(names) == header;
      SplitSingle(header);
    } else {
      var rest := names[0] + JoinLines(names[1..]);
      assert header + JoinLines(names) == header + "\n" + rest;
      SplitAfterLine(header, rest);
      SplitJoin(names[0], names[1..]);
      assert [names[0]] + names[1..] == names;
    }
  }

  /** Appending one more name to the joined text adds "\n" + name at the end. */
  lemma {:induction false} JoinLinesSnoc(names: seq<Line>, n: Line)
    ensures JoinLines(names + [n]) == JoinLines(names) + "\n" + n
    decreases |names|
  {
    if names == [] {
      assert names + [n] == [n];
      assert [n][1..] == [];
    } else {
      assert (names + [n])[0] == names[0];
      assert (names + [n])[1..] == names[1..] + [n];
      JoinLinesSnoc(names[1..], n);
    }
  }
}
