/**
 * The issue registry: file path -> (packageId -> issue). Every successful
 * mutation pushes the file's updated map to the two display surfaces.
 */
module Registry {
  import opened Types
  import opened IssueMaps
  import opened Diagnostics
  import opened Notifications

  type IssuesList = map<string, FileIssues>

  /** The file's map, empty when the file has none. */
  function FileMap(list: IssuesList, filePath: string): FileIssues {
    if filePath in list then list[filePath] else []
  }

  function LookupIssue(list: IssuesList, filePath: string, packageId: string): Option<Issue> {
    Get(FileMap(list, filePath), packageId)
  }

  predicate ValidList(list: IssuesList) {
    forall p :: p in list ==> WellFormed(list[p])
  }

  /** The registry after `addIssue(filePath, issue)`. */
  function AddIssueTo(list: IssuesList, filePath: string, issue: Issue): (r: IssuesList)
    ensures LookupIssue(r, filePath, issue.packageId) == Some(issue)
    ensures forall p, k :: p != filePath || k != issue.packageId ==> LookupIssue(r, p, k) == LookupIssue(list, p, k)
    ensures r.Keys == list.Keys + {filePath}
    ensures forall p :: p in list && p != filePath ==> r[p] == list[p]
    ensures ValidList(list) ==> ValidList(r)
  {
    var fi := FileMap(list, filePath);
    PutShape(fi, issue.packageId, issue);
    list[filePath := Put(fi, issue.packageId, issue)]
  }

  /** The registry after `removeIssue(filePath, packageId)`; unchanged when the entry is absent. */
  function RemoveIssueFrom(list: IssuesList, filePath: string, packageId: string): (r: IssuesList)
    ensures LookupIssue(r, filePath, packageId) == None
    ensures forall p, k :: p != filePath || k != packageId ==> LookupIssue(r, p, k) == LookupIssue(list, p, k)
    ensures LookupIssue(list, filePath, packageId).None? ==> r == list
    ensures r.Keys == list.Keys
    ensures forall p :: p in list && p != filePath ==> r[p] == list[p]
    ensures ValidList(list) ==> ValidList(r)
  {
    if filePath !in list || Get(list[filePath], packageId).None? then list
    else
      DeleteShape(list[filePath], packageId);
      list[filePath := Delete(list[filePath], packageId)]
  }

  /**
   * Adding an issue whose key was absent and removing it again restores the
   * file's previous map; a file that had none is left with an empty map.
   */
  lemma AddThenRemove(list: IssuesList, filePath: string, issue: Issue)
    requires LookupIssue(list, filePath, issue.packageId).None?
    ensures RemoveIssueFrom(AddIssueTo(list, filePath, issue), filePath, issue.packageId)
         == list[filePath := FileMap(list, filePath)]
  {
    PutThenDelete(FileMap(list, filePath), issue.packageId, issue);
  }

  /** Last writer wins: a second add with the same key replaces the first, in place. */
  lemma AddOverwrites(list: IssuesList, filePath: string, first: Issue, second: Issue)
    requires first.packageId == second.packageId
    ensures LookupIssue(AddIssueTo(AddIssueTo(list, filePath, first), filePath, second), filePath, first.packageId) == Some(second)
    ensures |AddIssueTo(AddIssueTo(list, filePath, first), filePath, second)[filePath]|
         == |AddIssueTo(list, filePath, first)[filePath]|
  {
    var once := AddIssueTo(list, filePath, first);
    PutShape(once[filePath], second.packageId, second);
  }

  /** What the diagnostics collection shows for a registry: every file's map, as diagnostics. */
  function Published(list: IssuesList): (c: map<string, seq<Diagnostic>>)
    ensures c.Keys == list.Keys
  {
    map f | f in list :: ToDiagnostics(list[f])
  }

  /** Republishing one file keeps the collection in step with the registry. */
  lemma PublishedUpdate(list: IssuesList, filePath: string, fi: FileIssues)
    ensures Published(list[filePath := fi]) == Published(list)[filePath := ToDiagnostics(fi)]
  {
  }

  class IssueManager {
    var issuesList: IssuesList
    const diagnostics: DiagnosticsManager
    const notifications: NotificationManager
    /** Every push to the displays so far: the file and the map pushed. */
    ghost var refreshes: seq<(string, FileIssues)>

    /**
     * The registry is well formed, the latch holds, and the diagnostics
     * collection shows exactly the registry's files, each with its map's
     * diagnostics.
     */
    ghost predicate Valid()
      reads this, diagnostics, notifications
    {
      && ValidList(issuesList)
      && notifications.Valid()
      && diagnostics.collection == Published(issuesList)
    }

    constructor (diagnostics: DiagnosticsManager, notifications: NotificationManager)
      requires notifications.Valid() && diagnostics.collection == map[]
      ensures Valid()
      ensures issuesList == map[] && refreshes == []
      ensures this.diagnostics == diagnostics && this.notifications == notifications
    {
      issuesList := map[];
      this.diagnostics := diagnostics;
      this.notifications := notifications;
      refreshes := [];
    }

    /** `getIssues(filePath)`: the file's current map, empty when there is none. */
    function GetIssues(filePath: string): (r: FileIssues)
      reads this
      requires ValidList(issuesList)
      ensures WellFormed(r)
      ensures forall k :: Get(r, k) == LookupIssue(issuesList, filePath, k)
    {
      FileMap(issuesList, filePath)
    }

    method AddIssue(filePath: string, issue: Issue)
      requires Valid()
      modifies this, diagnostics, notifications
      ensures Valid()
      ensures issuesList == AddIssueTo(old(issuesList), filePath, issue)
      ensures refreshes == old(refreshes) + [(filePath, issuesList[filePath])]
      ensures diagnostics.collection == old(diagnostics.collection)[filePath := ToDiagnostics(issuesList[filePath])]
      ensures notifications.RefreshedFrom(old(notifications.hasShown), old(notifications.shown), issuesList[filePath])
    {
      ghost var after := AddIssueTo(issuesList, filePath, issue);
      var packageId := issue.packageId;
      if filePath !in issuesList {
        issuesList := issuesList[filePath := []];
      }
      issuesList := issuesList[filePath := Put(issuesList[filePath], packageId, issue)];
      assert issuesList == after;
      RefreshDisplay(filePath, issuesList[filePath]);
      PublishedUpdate(old(issuesList), filePath, issuesList[filePath]);
    }

    method RemoveIssue(filePath: string, packageId: string)
      requires Valid()
      modifies this, diagnostics, notifications
      ensures Valid()
      ensures issuesList == RemoveIssueFrom(old(issuesList), filePath, packageId)
      ensures old(LookupIssue(issuesList, filePath, packageId)).None? ==>
        unchanged(this, diagnostics, notifications)
      ensures old(LookupIssue(issuesList, filePath, packageId)).Some? ==>
        && refreshes == old(refreshes) + [(filePath, issuesList[filePath])]
        && diagnostics.collection == old(diagnostics.collection)[filePath := ToDiagnostics(issuesList[filePath])]
        && notifications.RefreshedFrom(old(notifications.hasShown), old(notifications.shown), issuesList[filePath])
    {
      if filePath !in issuesList || Get(issuesList[filePath], packageId).None? {
        assert issuesList == RemoveIssueFrom(issuesList, filePath, packageId);
        return;
      }
      ghost var after := RemoveIssueFrom(issuesList, filePath, packageId);
      issuesList := issuesList[filePath := Delete(issuesList[filePath], packageId)];
      assert issuesList == after;
      RefreshDisplay(filePath, issuesList[filePath]);
      PublishedUpdate(old(issuesList), filePath, issuesList[filePath]);
    }

    /** Pushes one file's map to the diagnostics and to the notification. */
    method RefreshDisplay(filePath: string, issues: FileIssues)
      requires notifications.Valid()
      modifies this`refreshes, diagnostics, notifications
      ensures notifications.Valid()
      ensures refreshes == old(refreshes) + [(filePath, issues)]
      ensures diagnostics.collection == old(diagnostics.collection)[filePath := ToDiagnostics(issues)]
      ensures notifications.RefreshedFrom(old(notifications.hasShown), old(notifications.shown), issues)
    {
      diagnostics.Refresh(filePath, issues);
      notifications.Refresh(issues);
      refreshes := refreshes + [(filePath, issues)];
    }
  }
}
