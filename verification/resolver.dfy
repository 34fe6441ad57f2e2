/**
  Single-bean resolution: the names a pattern matched on the MBean server
  become the one bean the command acts on, or a diagnostic.
 */
module Resolver {
  import opened Lines
  import opened Remote

  /** Prefix of the diagnostic for a pattern that matched nothing. */
  const NotFoundPrefix: string := "MBean not found: "

  /** First line of the diagnostic for a pattern that matched several beans
      (the spelling is the command's own). */
  const AmbiguousHeader: Line := "Ambigous MBean selection"

  /** Either the single bean a pattern selects, or the message the command
      fails with. */
  datatype Resolution = Resolved(name: Name) | Failed(message: string)

  /** Resolves the names `matches` that the pattern `pattern` matched.
      Nothing found names the pattern; several found lists every candidate on
      a line of its own after the header; exactly one is returned. */
  function Resolve(pattern: string, matches: Matches): (r: Resolution)
    ensures r.Resolved? <==> |matches| == 1
    ensures r.Resolved? ==> matches == [r.name]
    ensures |matches| == 0 ==> r.message == NotFoundPrefix + pattern
    ensures |matches| > 1 ==> Split(r.message) == [AmbiguousHeader] + matches
  {
    if |matches| == 0 then
      Failed(NotFoundPrefix + pattern)
    else if |matches| > 1 then
      SplitJoin(AmbiguousHeader, matches);
      Failed(AmbiguousHeader + JoinLines(matches))
    else
      Resolved(matches[0])
  }

  /** Builds the candidate list one name at a time, as the command's loop over
      the match set does: a newline, then the name. The loop is proved to build
      `JoinLines(matches)`, the text `Resolve` uses. */
  method AppendNames(matches: seq<Name>) returns (sb: string)
    ensures sb == JoinLines(matches)
  {
    sb := "";
    var i := 0;
    while i < |matches|
      invariant 0 <= i <= |matches|
      invariant sb == JoinLines(matches[..i])
    {
      JoinLinesSnoc(matches[..i], matches[i]);
      assert matches[..i + 1] == matches[..i] + [matches[i]];
      sb := sb + "\n" + matches[i];
      i := i + 1;
    }
    assert matches[..i] == matches;
  }

  /** In a duplicate-free sequence every element occurs exactly once. */
  lemma {:induction false} DistinctOccursOnce<T>(s: seq<T>, x: T)
    requires Distinct(s)
    requires x in s
    ensures multiset(s)[x] == 1
    decreases |s|
  {
    assert s == [s[0]] + s[1..];
    assert Distinct(s[1..]) by {
      forall i, j | 0 <= i < j < |s[1..]| ensures s[1..][i] != s[1..][j] {
        assert s[1..][i] == s[i + 1] && s[1..][j] == s[j + 1];
      }
    }
    if x == s[0] {
      assert x !in s[1..] by {
        forall j | 0 <= j < |s[1..]| ensures s[1..][j] != x {
          assert s[1..][j] == s[j + 1];
        }
      }
      assert multiset(s[1..])[x] == 0;
    } else {
      DistinctOccursOnce(s[1..], x);
    }
  }

  /** The lines of a resolution message after its first line. */
  function ListedNames(message: string): seq<Line>
  {
    Split(message)[1..]
  }

  /** The ambiguous-selection diagnostic lists every matched name exactly once
      after its header, and lists nothing that was not matched. */
  lemma AmbiguousListsEachOnce(pattern: string, matches: Matches)
    requires |matches| > 1
    ensures Resolve(pattern, matches).Failed?
    ensures forall n :: n in matches ==> multiset(ListedNames(Resolve(pattern, matches).message))[n] == 1
    ensures forall l :: l in ListedNames(Resolve(pattern, matches).message) ==> l in matches
  {
    var listed := ListedNames(Resolve(pattern, matches).message);
    assert listed == matches;
    forall n | n in matches
      ensures multiset(listed)[n] == 1
    {
      DistinctOccursOnce(matches, n);
    }
  }
}
