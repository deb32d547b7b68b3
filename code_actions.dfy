/**
 * The quick-fix provider: for each diagnostic the advisor published on a
 * document, one "Fix: Upgrade <name>" action that hands the issue's fix
 * prompt to the upgrade tool.
 */
module CodeActions {
  import opened Types
  import opened Utility
  import opened IssueMaps
  import opened Diagnostics

  datatype CodeActionKind = QuickFix

  datatype CodeAction = CodeAction(title: string, kind: CodeActionKind, command: Command)

  /** JavaScript truthiness of a diagnostic code: absent, "" and 0 are falsy; an object is truthy. */
  predicate CodeTruthy(code: DiagnosticCode) {
    match code
    case NoCode => false
    case StringCode(s) => s != ""
    case NumberCode(n) => n != 0
    case TargetCode(_) => true
  }

  /** What `String(o)` gives for a plain object. */
  const ObjectText := "[object Object]"

  /** `String(code)` for a code that is present. */
  function CodeText(code: DiagnosticCode): string
    requires !code.NoCode?
  {
    match code
    case StringCode(s) => s
    case NumberCode(n) => NumberToString(n)
    case TargetCode(_) => ObjectText
  }

  const FixTitlePrefix := "Fix: Upgrade "

  /** The action offered for an issue whose metadata is `item`. */
  function IssueAction(issue: Issue, item: DependencyCheckItem): CodeAction {
    CodeAction(FixTitlePrefix + item.name, QuickFix,
               Command("Upgrade", ViewTriggerJavaUpgradeTool, [BuildFixPrompt(issue)]))
  }

  /**
   * What one diagnostic contributes: an action only for a diagnostic of the
   * advisor's source, with a truthy code naming a live issue of the
   * document, whose package has metadata.
   */
  function ActionFor(d: Diagnostic, issues: FileIssues, metadataById: string -> Option<DependencyCheckItem>)
    : (r: Option<CodeAction>)
    ensures r.Some? <==>
      && d.source == Some(PromotionDiagnosticSource)
      && CodeTruthy(d.code)
      && Get(issues, CodeText(d.code)).Some?
      && metadataById(Get(issues, CodeText(d.code)).value.packageId).Some?
    ensures r.Some? ==>
      && r.value.kind == QuickFix
      && r.value.title == FixTitlePrefix + metadataById(Get(issues, CodeText(d.code)).value.packageId).value.name
      && r.value.command.title == "Upgrade"
      && r.value.command.command == ViewTriggerJavaUpgradeTool
      && r.value.command.arguments == [BuildFixPrompt(Get(issues, CodeText(d.code)).value)]
  {
    if d.source != Some(PromotionDiagnosticSource) || !CodeTruthy(d.code) then None
    else
      match Get(issues, CodeText(d.code))
      case None => None
      case Some(issue) =>
        match metadataById(issue.packageId)
        case None => None
        case Some(item) => Some(IssueAction(issue, item))
  }

  function OptionToSeq<T>(o: Option<T>): seq<T> {
    match o
    case None => []
    case Some(x) => [x]
  }

  /** The actions for a list of diagnostics: at most one each, in diagnostic order. */
  function CodeActionsFor(ds: seq<Diagnostic>, issues: FileIssues, metadataById: string -> Option<DependencyCheckItem>)
    : (r: seq<CodeAction>)
    ensures |r| <= |ds|
  {
    if ds == [] then []
    else CodeActionsFor(ds[..|ds| - 1], issues, metadataById) + OptionToSeq(ActionFor(ds[|ds| - 1], issues, metadataById))
  }

  /** The actions of two lists of diagnostics are the actions of each, in turn. */
  lemma {:induction false} CodeActionsAppend(ds1: seq<Diagnostic>, ds2: seq<Diagnostic>, issues: FileIssues,
                                             metadataById: string -> Option<DependencyCheckItem>)
    ensures CodeActionsFor(ds1 + ds2, issues, metadataById)
         == CodeActionsFor(ds1, issues, metadataById) + CodeActionsFor(ds2, issues, metadataById)
  {
    if ds2 != [] {
      var ds2' := ds2[..|ds2| - 1];
      assert (ds1 + ds2)[..|ds1 + ds2| - 1] == ds1 + ds2';
      assert (ds1 + ds2)[|ds1 + ds2| - 1] == ds2[|ds2| - 1];
      CodeActionsAppend(ds1, ds2', issues, metadataById);
    } else {
      assert ds1 + ds2 == ds1;
    }
  }

  /** Diagnostics published by other tools never produce an action. */
  lemma {:induction false} ForeignDiagnosticsIgnored(ds: seq<Diagnostic>, issues: FileIssues,
                                                     metadataById: string -> Option<DependencyCheckItem>)
    requires forall i :: 0 <= i < |ds| ==> ds[i].source != Some(PromotionDiagnosticSource)
    ensures CodeActionsFor(ds, issues, metadataById) == []
  {
    if ds != [] {
      ForeignDiagnosticsIgnored(ds[..|ds| - 1], issues, metadataById);
    }
  }

  /** provideCodeActions, on the document's diagnostics and its current issue map. */
  method ProvideCodeActions(diagnostics: seq<Diagnostic>, issues: FileIssues,
                            metadataById: string -> Option<DependencyCheckItem>)
    returns (actions: seq<CodeAction>)
    ensures actions == CodeActionsFor(diagnostics, issues, metadataById)
  {
    actions := [];
    for i := 0 to |diagnostics|
      invariant actions == CodeActionsFor(diagnostics[..i], issues, metadataById)
    {
      var diagnostic := diagnostics[i];
      assert diagnostics[..i + 1][..i] == diagnostics[..i];
      if diagnostic.source == Some(PromotionDiagnosticSource) {
        if !CodeTruthy(diagnostic.code) {
          continue;
        }
        var packageId := CodeText(diagnostic.code);
        var issue := Get(issues, packageId);
        if issue.None? {
          continue;
        }
        var metadata := metadataById(issue.value.packageId);
        if metadata.None? {
          continue;
        }
        var action := CodeAction(FixTitlePrefix + metadata.value.name, QuickFix,
                                 Command("Upgrade", ViewTriggerJavaUpgradeTool, [BuildFixPrompt(issue.value)]));
        actions := actions + [action];
      }
    }
    assert diagnostics[..|diagnostics|] == diagnostics;
  }

  // ---------------------------------------------------------------------
  // The provider against the diagnostics the advisor itself published.

  /** The action an entry of the map should yield: none for an empty key or a package without metadata. */
  function EntryAction(e: Entry, metadataById: string -> Option<DependencyCheckItem>): Option<CodeAction> {
    if e.key != "" && metadataById(e.issue.packageId).Some?
    then Some(IssueAction(e.issue, metadataById(e.issue.packageId).value))
    else None
  }

  /** Reference: the entries' actions, in map order. */
  function IssueActions(fi: FileIssues, metadataById: string -> Option<DependencyCheckItem>): seq<CodeAction> {
    if fi == [] then []
    else IssueActions(fi[..|fi| - 1], metadataById) + OptionToSeq(EntryAction(fi[|fi| - 1], metadataById))
  }

  /** In a map with unique keys, an entry's key finds that entry's issue. */
  lemma GetOfEntry(fi: FileIssues, i: nat)
    requires UniqueKeys(fi) && i < |fi|
    ensures Get(fi, fi[i].key) == Some(fi[i].issue)
  {
    GetSpec(fi, fi[i].key);
    var j :| 0 <= j < |fi| && fi[j] == Entry(fi[i].key, Get(fi, fi[i].key).value);
  }

  /** Diagnostics that match a map's entries one by one yield the entries' actions. */
  lemma {:induction false} PointwiseActions(ds: seq<Diagnostic>, fi: FileIssues, issues: FileIssues,
                                            metadataById: string -> Option<DependencyCheckItem>, k: nat)
    requires |ds| == |fi| && k <= |fi|
    requires forall i :: 0 <= i < |ds| ==> ActionFor(ds[i], issues, metadataById) == EntryAction(fi[i], metadataById)
    ensures CodeActionsFor(ds[..k], issues, metadataById) == IssueActions(fi[..k], metadataById)
  {
    if k > 0 {
      PointwiseActions(ds, fi, issues, metadataById, k - 1);
      CodeActionsPrefixStep(ds, issues, metadataById, k);
      IssueActionsPrefixStep(fi, metadataById, k);
      assert ActionFor(ds[k - 1], issues, metadataById) == EntryAction(fi[k - 1], metadataById);
    }
  }

  lemma CodeActionsPrefixStep(ds: seq<Diagnostic>, issues: FileIssues,
                              metadataById: string -> Option<DependencyCheckItem>, k: nat)
    requires 0 < k <= |ds|
    ensures CodeActionsFor(ds[..k], issues, metadataById)
         == CodeActionsFor(ds[..k - 1], issues, metadataById) + OptionToSeq(ActionFor(ds[k - 1], issues, metadataById))
  {
    assert ds[..k][..k - 1] == ds[..k - 1];
  }

  lemma IssueActionsPrefixStep(fi: FileIssues, metadataById: string -> Option<DependencyCheckItem>, k: nat)
    requires 0 < k <= |fi|
    ensures IssueActions(fi[..k], metadataById)
         == IssueActions(fi[..k - 1], metadataById) + OptionToSeq(EntryAction(fi[k - 1], metadataById))
  {
    assert fi[..k][..k - 1] == fi[..k - 1];
  }

  /** The diagnostic published for the map's `i`-th entry yields that entry's action. */
  lemma PublishedEntryAction(fi: FileIssues, metadataById: string -> Option<DependencyCheckItem>, i: nat)
    requires WellFormed(fi) && i < |fi|
    ensures ActionFor(ToDiagnostics(fi)[i], fi, metadataById) == EntryAction(fi[i], metadataById)
  {
    var d := ToDiagnostics(fi)[i];
    assert d.code == StringCode(fi[i].key) && d.source == Some(PromotionDiagnosticSource);
    GetOfEntry(fi, i);
  }

  /**
   * The diagnostics refreshed for a file, handed back with the file's map,
   * give one quick fix per issue that has metadata and a non-empty key, in
   * the map's order.
   */
  lemma PublishedDiagnosticsActions(fi: FileIssues, metadataById: string -> Option<DependencyCheckItem>)
    requires WellFormed(fi)
    ensures CodeActionsFor(ToDiagnostics(fi), fi, metadataById) == IssueActions(fi, metadataById)
  {
    var ds := ToDiagnostics(fi);
    forall i | 0 <= i < |ds|
      ensures ActionFor(ds[i], fi, metadataById) == EntryAction(fi[i], metadataById)
    {
      PublishedEntryAction(fi, metadataById, i);
    }
    PointwiseActions(ds, fi, fi, metadataById, |fi|);
    assert ds[..|fi|] == ds;
    assert fi[..|fi|] == fi;
  }

  /** With metadata for every package and no empty key, every issue gets exactly one quick fix. */
  lemma {:induction false} FullMetadataOneActionPerIssue(fi: FileIssues, metadataById: string -> Option<DependencyCheckItem>)
    requires forall i :: 0 <= i < |fi| ==> fi[i].key != "" && metadataById(fi[i].issue.packageId).Some?
    ensures |IssueActions(fi, metadataById)| == |fi|
  {
    if fi != [] {
      FullMetadataOneActionPerIssue(fi[..|fi| - 1], metadataById);
    }
  }
}
