/**
 * The diagnostics surface: one warning per recorded issue of a file,
 * published into a collection keyed by file.
 */
module Diagnostics {
  import opened Types
  import opened Utility
  import opened IssueMaps

  datatype Severity = Error | Warning | Information | Hint

  /**
   * A diagnostic's code as the editor allows it: absent, a string, a number,
   * or a `{value, target}` object.
   */
  datatype DiagnosticCode = NoCode | StringCode(s: string) | NumberCode(n: int) | TargetCode(value: string)

  datatype Diagnostic = Diagnostic(
    range: Range,
    message: string,
    severity: Severity,
    code: DiagnosticCode,
    source: Option<string>)

  /**
   * `Object.entries(issues).map(...)`: one diagnostic per entry, in entry
   * order, carrying the entry's key as its code.
   */
  function ToDiagnostics(issues: FileIssues): (ds: seq<Diagnostic>)
    ensures |ds| == |issues|
    ensures forall i :: 0 <= i < |ds| ==>
      && ds[i].range == ZeroRange
      && ds[i].message == BuildMessage(issues[i].issue)
      && ds[i].severity == Warning
      && ds[i].code == StringCode(issues[i].key)
      && ds[i].source == Some(PromotionDiagnosticSource)
  {
    seq(|issues|, i requires 0 <= i < |issues| =>
      Diagnostic(ZeroRange, BuildMessage(issues[i].issue), Warning,
                 StringCode(issues[i].key), Some(PromotionDiagnosticSource)))
  }

  /**
   * For a map kept by the registry the codes are the package ids, pairwise
   * distinct, and each message names the reason of its issue.
   */
  lemma DiagnosticsOfRegistryMap(issues: FileIssues)
    requires WellFormed(issues)
    ensures forall i :: 0 <= i < |issues| ==>
      ToDiagnostics(issues)[i].code == StringCode(issues[i].issue.packageId)
      && MessageReason(ToDiagnostics(issues)[i].message) == Some(issues[i].issue.reason)
    ensures forall i, j :: 0 <= i < j < |issues| ==> ToDiagnostics(issues)[i].code != ToDiagnostics(issues)[j].code
  {
  }

  class DiagnosticsManager {
    /** The published collection, file -> diagnostics. */
    var collection: map<string, seq<Diagnostic>>

    constructor ()
      ensures collection == map[]
    {
      collection := map[];
    }

    /** Replaces the file's entry with one diagnostic per issue (never merges). */
    method Refresh(filePath: string, issues: FileIssues)
      modifies this
      ensures collection == old(collection)[filePath := ToDiagnostics(issues)]
    {
      collection := collection[filePath := ToDiagnostics(issues)];
    }
  }
}
