/**
 * The lens provider: one "Upgrade <name> with Java Upgrade Tool" lens per
 * issue of the document that has metadata, the Java engine's first and the
 * others by title, at most two of them.
 */
module CodeLenses {
  import opened Types
  import opened Utility
  import opened IssueMaps

  datatype CodeLens = CodeLens(range: Range, command: Command)

  const LensTitlePrefix := "Upgrade "
  const LensTitleSuffix := " with Java Upgrade Tool"
  /** "Upgrade Java Engine with Java Upgrade Tool" */
  const EngineLensTitle := LensTitlePrefix + "Java Engine" + LensTitleSuffix

  /** The lens for an issue whose metadata is `item`. */
  function LensFor(issue: Issue, item: DependencyCheckItem): CodeLens {
    CodeLens(ZeroRange, Command(LensTitlePrefix + item.name + LensTitleSuffix,
                                ViewTriggerJavaUpgradeTool, [BuildFixPrompt(issue)]))
  }

  predicate IsEngineLens(l: CodeLens) {
    l.command.title == EngineLensTitle
  }

  /** A lens carries the engine's title exactly when its metadata is named "Java Engine". */
  lemma EngineLensIffEngineName(issue: Issue, item: DependencyCheckItem)
    ensures IsEngineLens(LensFor(issue, item)) <==> item.name == "Java Engine"
  {
    MiddleInjective(LensTitlePrefix, item.name, "Java Engine", LensTitleSuffix);
  }

  /** Strings with the same prefix and suffix are equal exactly when their middles are. */
  lemma MiddleInjective(p: string, a: string, b: string, q: string)
    ensures p + a + q == p + b + q <==> a == b
  {
    if p + a + q == p + b + q {
      assert |a| == |b|;
      assert a == (p + a + q)[|p|..|p| + |a|];
      assert b == (p + b + q)[|p|..|p| + |b|];
    }
  }

  /** `values.map(...).filter(Boolean)`: the lenses of the issues that have metadata, in order. */
  function Candidates(issues: seq<Issue>, metadataByPackageId: string -> Option<DependencyCheckItem>)
    : (r: seq<CodeLens>)
    ensures |r| <= |issues|
  {
    if issues == [] then []
    else
      var issue := issues[|issues| - 1];
      Candidates(issues[..|issues| - 1], metadataByPackageId)
        + match metadataByPackageId(issue.packageId)
          case None => []
          case Some(item) => [LensFor(issue, item)]
  }

  /** Every candidate is the lens of one of the issues, built from that issue's metadata. */
  lemma {:induction false} CandidatesSound(issues: seq<Issue>, metadataByPackageId: string -> Option<DependencyCheckItem>)
    ensures forall l :: l in Candidates(issues, metadataByPackageId) ==>
      exists i :: 0 <= i < |issues| && metadataByPackageId(issues[i].packageId).Some?
        && l == LensFor(issues[i], metadataByPackageId(issues[i].packageId).value)
  {
    if issues != [] {
      var n := |issues| - 1;
      CandidatesSound(issues[..n], metadataByPackageId);
      forall l | l in Candidates(issues, metadataByPackageId)
        ensures exists i :: (0 <= i < |issues| && metadataByPackageId(issues[i].packageId).Some?
                             && l == LensFor(issues[i], metadataByPackageId(issues[i].packageId).value))
      {
        if l in Candidates(issues[..n], metadataByPackageId) {
          var i :| 0 <= i < n && metadataByPackageId(issues[..n][i].packageId).Some?
            && l == LensFor(issues[..n][i], metadataByPackageId(issues[..n][i].packageId).value);
          assert issues[i] == issues[..n][i];
        } else {
          assert l == LensFor(issues[n], metadataByPackageId(issues[n].packageId).value);
        }
      }
    }
  }

  /** Every issue that has metadata has its lens among the candidates. */
  lemma {:induction false} CandidatesComplete(issues: seq<Issue>, metadataByPackageId: string -> Option<DependencyCheckItem>, i: nat)
    requires i < |issues| && metadataByPackageId(issues[i].packageId).Some?
    ensures LensFor(issues[i], metadataByPackageId(issues[i].packageId).value) in Candidates(issues, metadataByPackageId)
  {
    var n := |issues| - 1;
    if i < n {
      CandidatesComplete(issues[..n], metadataByPackageId, i);
      assert issues[..n][i] == issues[i];
    }
  }

  // ---------------------------------------------------------------------
  // The order the comparator asks for.

  /** JavaScript's `<` on strings: lexicographic by character, a proper prefix first. */
  predicate Below(a: string, b: string)
    decreases |a|
  {
    |b| > 0 && (|a| == 0 || a[0] < b[0] || (a[0] == b[0] && Below(a[1..], b[1..])))
  }

  lemma {:induction false} BelowAsymmetric(a: string, b: string)
    ensures !(Below(a, b) && Below(b, a))
    decreases |a|
  {
    if |a| > 0 && |b| > 0 && a[0] == b[0] {
      BelowAsymmetric(a[1..], b[1..]);
    }
  }

  lemma {:induction false} BelowTransitive(a: string, b: string, c: string)
    requires Below(a, b) && Below(b, c)
    ensures Below(a, c)
    decreases |a|
  {
    if |a| > 0 && a[0] == b[0] && b[0] == c[0] {
      BelowTransitive(a[1..], b[1..], c[1..]);
    }
  }

  /** Two different strings are ordered one way or the other. */
  lemma {:induction false} BelowTotal(a: string, b: string)
    ensures a == b || Below(a, b) || Below(b, a)
    decreases |a|
  {
    if |a| > 0 && |b| > 0 && a[0] == b[0] {
      BelowTotal(a[1..], b[1..]);
      if a[1..] == b[1..] {
        assert a == [a[0]] + a[1..] && b == [b[0]] + b[1..];
      }
    }
  }

  /** The comparator handed to `sort`: negative puts `a` first. */
  function Compare(a: CodeLens, b: CodeLens): int {
    if IsEngineLens(a) then -1
    else if IsEngineLens(b) then 1
    else if Below(a.command.title, b.command.title) then -1
    else 1
  }

  /**
   * `a` may stand before `b`: `a` is the engine's lens, or neither is and
   * `b`'s title is not below `a`'s.
   */
  predicate LensLe(a: CodeLens, b: CodeLens) {
    IsEngineLens(a) || (!IsEngineLens(b) && !Below(b.command.title, a.command.title))
  }

  /**
   * The comparator never returns 0, so it is not a consistent order on its
   * own; `a` may stand before `b` exactly when one of the comparator's two
   * answers about the pair puts `a` first.
   */
  lemma ComparatorOrder(a: CodeLens, b: CodeLens)
    ensures LensLe(a, b) <==> Compare(a, b) < 0 || Compare(b, a) > 0
  {
    BelowAsymmetric(a.command.title, b.command.title);
  }

  lemma LensLeTotal(a: CodeLens, b: CodeLens)
    ensures LensLe(a, b) || LensLe(b, a)
  {
    BelowAsymmetric(a.command.title, b.command.title);
  }

  lemma LensLeTransitive(a: CodeLens, b: CodeLens, c: CodeLens)
    requires LensLe(a, b) && LensLe(b, c)
    ensures LensLe(a, c)
  {
    if !IsEngineLens(a) {
      var ta, tb, tc := a.command.title, b.command.title, c.command.title;
      BelowTotal(ta, tb);
      if Below(tc, ta) && Below(ta, tb) {
        BelowTransitive(tc, ta, tb);
      }
    }
  }

  predicate Sorted(s: seq<CodeLens>) {
    forall i :: 0 <= i < |s| - 1 ==> LensLe(s[i], s[i + 1])
  }

  /** In a sorted list every lens may stand before every later one. */
  lemma {:induction false} SortedPairwise(s: seq<CodeLens>, i: nat, j: nat)
    requires Sorted(s) && i < j < |s|
    ensures LensLe(s[i], s[j])
    decreases j - i
  {
    if i + 1 < j {
      SortedPairwise(s, i + 1, j);
      LensLeTransitive(s[i], s[i + 1], s[j]);
    }
  }

  /** Inserts `x` before the first lens it may stand before. */
  function Insert(x: CodeLens, s: seq<CodeLens>): seq<CodeLens> {
    if s == [] then [x]
    else if LensLe(x, s[0]) then [x] + s
    else [s[0]] + Insert(x, s[1..])
  }

  lemma {:induction false} InsertMultiset(x: CodeLens, s: seq<CodeLens>)
    ensures multiset(Insert(x, s)) == multiset(s) + multiset{x}
  {
    if s != [] && !LensLe(x, s[0]) {
      InsertMultiset(x, s[1..]);
      assert s == [s[0]] + s[1..];
    }
  }

  /** The inserted list starts with `x` or with the list's old head. */
  lemma InsertHead(x: CodeLens, s: seq<CodeLens>)
    ensures Insert(x, s)[0] == x || (s != [] && Insert(x, s)[0] == s[0])
  {
  }

  lemma {:induction false} InsertSorted(x: CodeLens, s: seq<CodeLens>)
    requires Sorted(s)
    ensures Sorted(Insert(x, s))
  {
    if s != [] && !LensLe(x, s[0]) {
      var rest := s[1..];
      var tail := Insert(x, rest);
      InsertSorted(x, rest);
      InsertHead(x, rest);
      LensLeTotal(x, s[0]);
      assert LensLe(s[0], tail[0]);
      var r := Insert(x, s);
      assert r == [s[0]] + tail;
      forall i | 0 <= i < |r| - 1
        ensures LensLe(r[i], r[i + 1])
      {
        if i > 0 {
          assert r[i] == tail[i - 1] && r[i + 1] == tail[i];
        }
      }
    }
  }

  /** `sort(compare)`, as an insertion sort under the comparator's order. */
  function SortLenses(s: seq<CodeLens>): (r: seq<CodeLens>)
    ensures Sorted(r)
    ensures multiset(r) == multiset(s)
  {
    if s == [] then []
    else
      var sorted := SortLenses(s[..|s| - 1]);
      InsertSorted(s[|s| - 1], sorted);
      InsertMultiset(s[|s| - 1], sorted);
      assert s == s[..|s| - 1] + [s[|s| - 1]];
      Insert(s[|s| - 1], sorted)
  }

  /** In a sorted list that does not start with the engine's lens, no lens is the engine's. */
  lemma {:induction false} NoEngineAfter(s: seq<CodeLens>, i: nat)
    requires Sorted(s) && i < |s| && !IsEngineLens(s[0])
    ensures !IsEngineLens(s[i])
  {
    if i > 0 {
      NoEngineAfter(s, i - 1);
    }
  }

  /** A sorted list that holds the engine's lens starts with one. */
  lemma EngineFirst(s: seq<CodeLens>)
    requires Sorted(s) && exists l :: l in s && IsEngineLens(l)
    ensures IsEngineLens(s[0])
  {
    var l :| l in s && IsEngineLens(l);
    var i :| 0 <= i < |s| && s[i] == l;
    if !IsEngineLens(s[0]) {
      NoEngineAfter(s, i);
    }
  }

  function Min(a: nat, b: nat): nat {
    if a < b then a else b
  }

  /**
   * provideCodeLenses on the document's issue map: at most two lenses, all
   * of them candidates, the engine's first when it is a candidate, and the
   * others in ascending title order.
   */
  function ProvideCodeLenses(issues: FileIssues, metadataByPackageId: string -> Option<DependencyCheckItem>)
    : (r: seq<CodeLens>)
    ensures |r| == Min(2, |Candidates(Values(issues), metadataByPackageId)|)
    ensures multiset(r) <= multiset(Candidates(Values(issues), metadataByPackageId))
    ensures (exists l :: l in Candidates(Values(issues), metadataByPackageId) && IsEngineLens(l)) ==>
      IsEngineLens(r[0])
    ensures |r| == 2 && !IsEngineLens(r[0]) ==>
      !IsEngineLens(r[1]) && !Below(r[1].command.title, r[0].command.title)
    ensures forall l, x :: l in r && x in multiset(Candidates(Values(issues), metadataByPackageId)) - multiset(r) ==>
      LensLe(l, x)
  {
    var candidates := Candidates(Values(issues), metadataByPackageId);
    var sorted := SortLenses(candidates);
    var r := sorted[..Min(2, |sorted|)];
    TakeSorted(sorted, |r|);
    TakeSmallest(sorted, |r|);
    EngineCandidateFirst(candidates, sorted);
    r
  }

  /** A prefix of a sorted list is sorted and holds only lenses of the list. */
  lemma TakeSorted(s: seq<CodeLens>, n: nat)
    requires Sorted(s) && n <= |s|
    ensures Sorted(s[..n])
    ensures multiset(s[..n]) <= multiset(s)
  {
    assert s == s[..n] + s[n..];
    assert multiset(s) == multiset(s[..n]) + multiset(s[n..]);
  }

  /** A prefix of a sorted list holds lenses that may stand before every lens left out. */
  /** Every lens of a sorted list's prefix may stand before every lens after it. */
  lemma SortedSplit(s: seq<CodeLens>, n: nat)
    requires Sorted(s) && n <= |s|
    ensures forall i, j :: 0 <= i < n <= j < |s| ==> LensLe(s[i], s[j])
  {
    forall i, j | 0 <= i < n <= j < |s|
      ensures LensLe(s[i], s[j])
    {
      SortedPairwise(s, i, j);
    }
  }

  lemma TakeSmallest(s: seq<CodeLens>, n: nat)
    requires Sorted(s) && n <= |s|
    ensures forall l, x :: l in s[..n] && x in multiset(s) - multiset(s[..n]) ==> LensLe(l, x)
  {
    SortedSplit(s, n);
    assert s == s[..n] + s[n..];
    assert multiset(s) - multiset(s[..n]) == multiset(s[n..]);
    forall l, x | l in s[..n] && x in multiset(s) - multiset(s[..n])
      ensures LensLe(l, x)
    {
      assert x in s[n..];
      var i :| 0 <= i < n && s[i] == l;
      var j :| n <= j < |s| && s[j] == x;
    }
  }

  /** After sorting, a candidate engine lens stands first. */
  lemma EngineCandidateFirst(candidates: seq<CodeLens>, sorted: seq<CodeLens>)
    requires Sorted(sorted) && multiset(sorted) == multiset(candidates)
    ensures (exists l :: l in candidates && IsEngineLens(l)) ==> IsEngineLens(sorted[0])
  {
    if exists l :: l in candidates && IsEngineLens(l) {
      var l :| l in candidates && IsEngineLens(l);
      assert l in multiset(sorted);
      EngineFirst(sorted);
    }
  }

  /** Every lens shown is the lens of one of the document's issues that has metadata. */
  lemma ShownLensesAreIssueLenses(issues: FileIssues, metadataByPackageId: string -> Option<DependencyCheckItem>)
    ensures forall l :: l in ProvideCodeLenses(issues, metadataByPackageId) ==>
      && l.range == ZeroRange
      && l.command.command == ViewTriggerJavaUpgradeTool
      && (exists i :: 0 <= i < |issues| && metadataByPackageId(issues[i].issue.packageId).Some?
           && l.command.arguments == [BuildFixPrompt(issues[i].issue)]
           && l.command.title == LensTitlePrefix + metadataByPackageId(issues[i].issue.packageId).value.name + LensTitleSuffix)
  {
    var vs := Values(issues);
    CandidatesSound(vs, metadataByPackageId);
    forall l | l in ProvideCodeLenses(issues, metadataByPackageId)
      ensures l in Candidates(vs, metadataByPackageId)
    {
      assert l in multiset(ProvideCodeLenses(issues, metadataByPackageId));
    }
  }
}
