/**
 * The WarpFleet repository extraction of the Angular editor's ctrl-click
 * handler: in the statement list of the script, every `WF.ADDREPO` at an
 * index above 0 whose previous statement is a quoted string literal
 * contributes that literal without its quotes. The statement list itself
 * comes from the WarpScript parser, which is not part of this model.
 */
module WarpFleet {
  import opened Js

  const AddRepo := "WF.ADDREPO"

  /** The quote test: starts and ends with `"`, or starts and ends with `'`. */
  predicate IsQuotedLiteral(s: string)
  {
    || (StartsWith(s, "\"") && EndsWith(s, "\""))
    || (StartsWith(s, "'") && EndsWith(s, "'"))
  }

  /** `s.substring(1, s.length - 1)`. */
  function Unquote(s: string): string
  {
    Substring(s, 1, |s| - 1)
  }

  /** Statement `i` registers a repository. */
  predicate RegistersRepo(statements: seq<string>, i: int)
  {
    0 < i < |statements| && statements[i] == AddRepo && IsQuotedLiteral(statements[i - 1])
  }

  /** The repositories registered by the statements before index `n`, in order. */
  function ReposBefore(statements: seq<string>, n: nat): seq<string>
    requires n <= |statements|
  {
    if n == 0 then []
    else ReposBefore(statements, n - 1)
         + (if RegistersRepo(statements, n - 1) then [Unquote(statements[n - 2])] else [])
  }

  function WarpFleetRepos(statements: seq<string>): seq<string>
  {
    ReposBefore(statements, |statements|)
  }

  /** The `statements.forEach` loop pushing into `repos`. */
  method ExtractRepos(statements: seq<string>) returns (repos: seq<string>)
    ensures repos == WarpFleetRepos(statements)
  {
    repos := [];
    var i := 0;
    while i < |statements|
      invariant 0 <= i <= |statements|
      invariant repos == ReposBefore(statements, i)
    {
      var st := statements[i];
      if st == AddRepo && i > 0 {
        var previousStatement := statements[i - 1];
        if (StartsWith(previousStatement, "\"") && EndsWith(previousStatement, "\""))
          || (StartsWith(previousStatement, "'") && EndsWith(previousStatement, "'"))
        {
          repos := repos + [Substring(previousStatement, 1, |previousStatement| - 1)];
        }
      }
      assert ReposBefore(statements, i + 1)
          == ReposBefore(statements, i) + (if RegistersRepo(statements, i) then [Unquote(statements[i - 1])] else []);
      i := i + 1;
    }
  }

  // ---------------------------------------------------------------------------
  // What the extracted list is.

  /** The indices below `n` that register a repository, in increasing order. */
  function RepoIndices(statements: seq<string>, n: nat): seq<nat>
    requires n <= |statements|
  {
    if n == 0 then []
    else RepoIndices(statements, n - 1) + (if RegistersRepo(statements, n - 1) then [n - 1] else [])
  }

  /** The indices are exactly the registering ones, each once, increasing. */
  lemma {:induction false} RepoIndicesAreExact(statements: seq<string>, n: nat)
    requires n <= |statements|
    ensures forall i :: i in RepoIndices(statements, n) <==> 0 <= i < n && RegistersRepo(statements, i)
    ensures forall a, b :: 0 <= a < b < |RepoIndices(statements, n)| ==> RepoIndices(statements, n)[a] < RepoIndices(statements, n)[b]
    ensures forall a :: 0 <= a < |RepoIndices(statements, n)| ==> RepoIndices(statements, n)[a] < n
  {
    if n > 0 {
      RepoIndicesAreExact(statements, n - 1);
    }
  }

  /**
   * `out[j]` is `f` of the statement just before index `idx[j]`, for every `j`,
   * stated from the last pair backwards.
   */
  ghost predicate PicksBefore<T>(src: seq<T>, out: seq<T>, idx: seq<nat>, f: T -> T)
    decreases |idx|
  {
    && |out| == |idx|
    && (idx != [] ==>
          && 0 < idx[|idx| - 1] < |src|
          && out[|out| - 1] == f(src[idx[|idx| - 1] - 1])
          && PicksBefore(src, out[..|out| - 1], idx[..|idx| - 1], f))
  }

  /** `PicksBefore`, read index by index. */
  lemma {:induction false} PicksBeforeAt<T>(src: seq<T>, out: seq<T>, idx: seq<nat>, f: T -> T, j: int)
    requires PicksBefore(src, out, idx, f) && 0 <= j < |idx|
    ensures 0 < idx[j] < |src| && out[j] == f(src[idx[j] - 1])
    decreases |idx|
  {
    if j < |idx| - 1 {
      var out', idx' := out[..|out| - 1], idx[..|idx| - 1];
      PicksBeforeAt(src, out', idx', f, j);
      assert out'[j] == out[j] && idx'[j] == idx[j];
    }
  }

  lemma {:induction false} ReposMatchBefore(statements: seq<string>, n: nat)
    requires n <= |statements|
    ensures PicksBefore(statements, ReposBefore(statements, n), RepoIndices(statements, n), Unquote)
  {
    if n > 0 {
      ReposMatchBefore(statements, n - 1);
      var repos, idx := ReposBefore(statements, n - 1), RepoIndices(statements, n - 1);
      if RegistersRepo(statements, n - 1) {
        var repos', idx' := repos + [Unquote(statements[n - 2])], idx + [n - 1];
        assert ReposBefore(statements, n) == repos';
        assert RepoIndices(statements, n) == idx';
        assert repos'[..|repos'| - 1] == repos && idx'[..|idx'| - 1] == idx;
      } else {
        assert ReposBefore(statements, n) == repos;
        assert RepoIndices(statements, n) == idx;
      }
    }
  }

  /**
   * The `j`-th repository is the unquoted statement just before the `j`-th
   * registering `WF.ADDREPO`: order of discovery, duplicates kept.
   */
  lemma ReposFollowIndices(statements: seq<string>, n: nat)
    requires n <= |statements|
    ensures |ReposBefore(statements, n)| == |RepoIndices(statements, n)|
    ensures forall j :: 0 <= j < |RepoIndices(statements, n)| ==>
      0 < RepoIndices(statements, n)[j] < |statements|
      && ReposBefore(statements, n)[j] == Unquote(statements[RepoIndices(statements, n)[j] - 1])
  {
    ReposMatchBefore(statements, n);
    var repos, idx := ReposBefore(statements, n), RepoIndices(statements, n);
    forall j | 0 <= j < |idx|
      ensures 0 < idx[j] < |statements| && repos[j] == Unquote(statements[idx[j] - 1])
    {
      PicksBeforeAt(statements, repos, idx, Unquote, j);
    }
  }

  /** Every extracted repository comes from some registering `WF.ADDREPO` at an index above 0. */
  lemma ReposAreSound(statements: seq<string>, j: int)
    requires 0 <= j < |WarpFleetRepos(statements)|
    ensures exists i :: 0 < i < |statements| && statements[i] == AddRepo && IsQuotedLiteral(statements[i - 1])
                        && WarpFleetRepos(statements)[j] == Unquote(statements[i - 1])
  {
    ReposFollowIndices(statements, |statements|);
    RepoIndicesAreExact(statements, |statements|);
    var i := RepoIndices(statements, |statements|)[j];
    assert RegistersRepo(statements, i);
  }

  /** The number of `WF.ADDREPO` statements at indices from 1 to `n - 1`. */
  function MarkerCount(statements: seq<string>, n: nat): nat
    requires n <= |statements|
  {
    if n <= 1 then 0
    else MarkerCount(statements, n - 1) + (if statements[n - 1] == AddRepo then 1 else 0)
  }

  /** There are never more repositories than `WF.ADDREPO` statements after the first position. */
  lemma {:induction false} ReposAtMostMarkers(statements: seq<string>, n: nat)
    requires n <= |statements|
    ensures |ReposBefore(statements, n)| <= MarkerCount(statements, n)
  {
    if n > 0 {
      ReposAtMostMarkers(statements, n - 1);
    }
  }

  /** For a literal of two or more characters, putting the quotes back gives the statement. */
  lemma UnquoteRoundTrip(s: string)
    requires IsQuotedLiteral(s) && |s| >= 2
    ensures |Unquote(s)| == |s| - 2
    ensures [s[0]] + Unquote(s) + [s[|s| - 1]] == s
    ensures s[0] == s[|s| - 1] && (s[0] == '"' || s[0] == '\'')
  {
  }

  /** A lone `"` passes the quote test, and `substring(1, 0)` swaps to `substring(0, 1)`: it is kept whole. */
  lemma LoneQuoteIsKept()
    ensures IsQuotedLiteral("\"") && Unquote("\"") == "\""
    ensures WarpFleetRepos(["\"", AddRepo]) == ["\""]
  {
    var st := ["\"", AddRepo];
    assert RegistersRepo(st, 1);
    assert ReposBefore(st, 1) == [];
  }

  /** `"repo1" WF.ADDREPO "repo2" WF.ADDREPO` registers both repositories, in order. */
  lemma TwoRepos()
    ensures WarpFleetRepos(["\"repo1\"", AddRepo, "'repo2'", AddRepo]) == ["repo1", "repo2"]
  {
    var st := ["\"repo1\"", AddRepo, "'repo2'", AddRepo];
    assert !RegistersRepo(st, 0) && RegistersRepo(st, 1) && !RegistersRepo(st, 2) && RegistersRepo(st, 3);
    assert Unquote(st[0]) == "repo1" && Unquote(st[2]) == "repo2";
    assert ReposBefore(st, 1) == [];
    assert ReposBefore(st, 2) == ["repo1"];
    assert ReposBefore(st, 3) == ["repo1"];
  }

  /** `WF.ADDREPO` first, or after an unquoted `123`, registers nothing. */
  lemma UnquotedOrFirstRegistersNothing()
    ensures WarpFleetRepos([AddRepo]) == []
    ensures WarpFleetRepos(["123", AddRepo]) == []
    ensures WarpFleetRepos([]) == []
  {
    assert ReposBefore([AddRepo], 0) == [];
    var st := ["123", AddRepo];
    assert !IsQuotedLiteral("123") && !RegistersRepo(st, 1);
    assert ReposBefore(st, 1) == [];
  }
}
