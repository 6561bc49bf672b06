/**
 * The commit classifier of `src/git/mod.rs`: each commit summary maps to a
 * bump level, and a list of commits gets the highest level among them. The
 * rules loosely echo the Summary section of Conventional Commits 1.0.0.
 */
module Git {
  import opened Strings

  /** Ordered as declared: None < Patch < Minor < Major (derived `Ord`). */
  datatype BumpLevel = None | Patch | Minor | Major

  function Rank(l: BumpLevel): nat {
    match l
    case None => 0
    case Patch => 1
    case Minor => 2
    case Major => 3
  }

  /** The derived `<=` of `BumpLevel`. */
  predicate Le(a: BumpLevel, b: BumpLevel) {
    Rank(a) <= Rank(b)
  }

  function Max(a: BumpLevel, b: BumpLevel): (m: BumpLevel)
    ensures Le(a, m) && Le(b, m) && (m == a || m == b)
  {
    if Le(a, b) then b else a
  }

  /** The derived order is a total order and follows declaration order. */
  lemma LeIsTotalOrder()
    ensures forall a :: Le(a, a)
    ensures forall a, b :: Le(a, b) && Le(b, a) ==> a == b
    ensures forall a, b, c :: Le(a, b) && Le(b, c) ==> Le(a, c)
    ensures forall a, b :: Le(a, b) || Le(b, a)
    ensures !Le(Patch, None) && !Le(Minor, Patch) && !Le(Major, Minor)
  {
  }

  /**
   * `summary_to_bumplevel`: the rules are tried in order and the first
   * that fires decides: prefix "fix", then prefix "feat", then "BREAKING"
   * anywhere in the summary.
   */
  function SummaryToBumpLevel(summary: string): (r: BumpLevel)
    ensures r == Patch <==> StartsWith(summary, "fix")
    ensures r == Minor <==> !StartsWith(summary, "fix") && StartsWith(summary, "feat")
    ensures r == Major <==>
      !StartsWith(summary, "fix") && !StartsWith(summary, "feat") && Contains(summary, "BREAKING")
  {
    if StartsWith(summary, "fix") then Patch
    else if StartsWith(summary, "feat") then Minor
    else if Contains(summary, "BREAKING") then Major
    else None
  }

  /**
   * `calc_bumplevel`: the largest per-commit level. The source sorts the
   * levels and takes the last; `SortedLastIsCalc` shows the two agree. An
   * empty list makes the source's `expect` panic, hence the precondition.
   */
  function CalcBumpLevel(commits: seq<string>): (r: BumpLevel)
    requires |commits| > 0
    ensures forall i :: 0 <= i < |commits| ==> Le(SummaryToBumpLevel(commits[i]), r)
    ensures exists i :: 0 <= i < |commits| && r == SummaryToBumpLevel(commits[i])
  {
    if |commits| == 1 then SummaryToBumpLevel(commits[0])
    else
      var init := commits[..|commits| - 1];
      var r := Max(CalcBumpLevel(init), SummaryToBumpLevel(commits[|commits| - 1]));
      assert forall i :: 0 <= i < |init| ==> commits[i] == init[i];
      r
  }

  /** The per-commit levels, in commit order (`commits.iter().map(...)`). */
  function Levels(commits: seq<string>): (levels: seq<BumpLevel>)
    ensures |levels| == |commits|
    ensures forall i :: 0 <= i < |commits| ==> levels[i] == SummaryToBumpLevel(commits[i])
  {
    seq(|commits|, i requires 0 <= i < |commits| => SummaryToBumpLevel(commits[i]))
  }

  predicate Ascending(levels: seq<BumpLevel>) {
    forall i, j :: 0 <= i < j < |levels| ==> Le(levels[i], levels[j])
  }

  /** Two levels that bound each other from above are the same level. */
  lemma LeAntisymmetric(a: BumpLevel, b: BumpLevel)
    requires Le(a, b) && Le(b, a)
    ensures a == b
  {
  }

  /**
   * The last element of any ascending rearrangement of the per-commit
   * levels (what `sort` followed by `last` yields) is `CalcBumpLevel`.
   */
  lemma SortedLastIsCalc(commits: seq<string>, sorted: seq<BumpLevel>)
    requires |commits| > 0
    requires multiset(sorted) == multiset(Levels(commits))
    requires Ascending(sorted)
    ensures |sorted| > 0 && sorted[|sorted| - 1] == CalcBumpLevel(commits)
  {
    var levels := Levels(commits);
    var r := CalcBumpLevel(commits);
    assert |sorted| == |levels| by {
      calc {
        |sorted|;
        |multiset(sorted)|;
        |multiset(levels)|;
        |levels|;
      }
    }
    var last := sorted[|sorted| - 1];
    assert last in multiset(levels) by {
      assert last in multiset(sorted);
    }
    var i :| 0 <= i < |levels| && levels[i] == last;
    assert Le(last, r);
    var j :| 0 <= j < |commits| && r == SummaryToBumpLevel(commits[j]);
    assert r in multiset(sorted) by {
      assert levels[j] == r;
      assert r in multiset(levels);
    }
    var k :| 0 <= k < |sorted| && sorted[k] == r;
    if k < |sorted| - 1 {
      assert Le(sorted[k], last);
    }
    LeAntisymmetric(last, r);
  }

  /** The result does not depend on the order of the commits. */
  lemma OrderIndependent(a: seq<string>, b: seq<string>)
    requires |a| > 0
    requires multiset(a) == multiset(b)
    ensures |b| > 0
    ensures CalcBumpLevel(a) == CalcBumpLevel(b)
  {
    assert |b| == |a| by {
      calc {
        |b|;
        |multiset(b)|;
        |multiset(a)|;
        |a|;
      }
    }
    var ra, rb := CalcBumpLevel(a), CalcBumpLevel(b);
    var i :| 0 <= i < |a| && ra == SummaryToBumpLevel(a[i]);
    assert a[i] in multiset(b) by {
      assert a[i] in multiset(a);
    }
    var i' :| 0 <= i' < |b| && b[i'] == a[i];
    assert Le(ra, rb);
    var j :| 0 <= j < |b| && rb == SummaryToBumpLevel(b[j]);
    assert b[j] in multiset(a) by {
      assert b[j] in multiset(b);
    }
    var j' :| 0 <= j' < |a| && a[j'] == b[j];
    assert Le(rb, ra);
    LeAntisymmetric(ra, rb);
  }

  /**
   * Appending a commit never lowers the result: the new result is the
   * larger of the old one and the new commit's level.
   */
  lemma {:induction false} AppendMonotone(commits: seq<string>, commit: string)
    requires |commits| > 0
    ensures CalcBumpLevel(commits + [commit]) == Max(CalcBumpLevel(commits), SummaryToBumpLevel(commit))
    ensures Le(CalcBumpLevel(commits), CalcBumpLevel(commits + [commit]))
  {
    var all := commits + [commit];
    assert all[..|all| - 1] == commits;
  }

  /** A "fix" prefix wins over a "BREAKING" marker later in the summary. */
  lemma FixBeforeBreaking()
    ensures SummaryToBumpLevel("fix: BREAKING parser") == Patch
  {
    assert StartsWith("fix: BREAKING parser", "fix");
  }

  /** The "feat" test is a plain prefix test, so "feature" counts too. */
  lemma FeaturePrefix()
    ensures SummaryToBumpLevel("feature: tags") == Minor
  {
    assert "feature: tags"[1] != "fix"[1];
    assert StartsWith("feature: tags", "feat");
  }

  /** "BREAKING" counts wherever it appears, not only as a prefix. */
  lemma BreakingAnywhere()
    ensures SummaryToBumpLevel("chore: BREAKING") == Major
  {
    var s := "chore: BREAKING";
    assert s[0] != "fix"[0] && s[0] != "feat"[0];
    assert "BREAKING" <= s[7..];
    assert Contains(s[7..], "BREAKING");
    assert Contains(s[6..], "BREAKING");
    assert Contains(s[5..], "BREAKING");
    assert Contains(s[4..], "BREAKING");
    assert Contains(s[3..], "BREAKING");
    assert Contains(s[2..], "BREAKING");
    assert Contains(s[1..], "BREAKING");
  }

  /** A summary matching no rule gives no bump. */
  lemma NoRuleNoBump()
    ensures SummaryToBumpLevel("docs: readme") == None
  {
    assert "docs: readme"[0] != "fix"[0] && "docs: readme"[0] != "feat"[0];
    NotContainsWithoutFirst("docs: readme", "BREAKING");
  }
}
