/**
 * Shared data model of the upgrade advisor: the issue record, the metadata
 * table entry, the cached metadata item, and the constants that the advisor
 * reads from its constants module.
 */
module Types {

  datatype Option<+T> = None | Some(value: T)

  /** Why a package (or the Java engine itself) is flagged. */
  datatype Reason = EndOfLife | Cve | EngineTooOld

  /**
   * One recorded problem. `packageDisplayName` is optional; the three
   * version fields are free text as the scan produced them.
   */
  datatype Issue = Issue(
    packageId: string,
    packageDisplayName: Option<string>,
    reason: Reason,
    currentVersion: string,
    suggestedVersion: string)

  /** One row of the compatibility table. */
  datatype DependencyCheckItem = DependencyCheckItem(name: string, supportedVersion: string)

  /** The compatibility table, keyed by group id. */
  type DependencyCheckMetadata = map<string, DependencyCheckItem>

  /**
   * The cached snapshot as stored in the host's key/value storage. Both
   * fields are optional because the reader guards each with a default.
   */
  datatype MementoItem = MementoItem(lastUpdatedTs: Option<real>, data: Option<DependencyCheckMetadata>)

  /** A position in a text document (zero-based line and character). */
  datatype Position = Position(line: nat, character: nat)

  datatype Range = Range(start: Position, end: Position)

  /** The placeholder range at the start of a file, `new Range(0, 0, 0, 0)`. */
  const ZeroRange := Range(Position(0, 0), Position(0, 0))

  /** An editor command bound to a quick fix, a lens or a button. */
  datatype Command = Command(title: string, command: string, arguments: seq<string>)

  /** JavaScript truthiness of an optional string: absent and "" are falsy. */
  predicate Truthy(s: Option<string>) {
    s.Some? && s.value != ""
  }

  /** Reserved group id under which the Java engine itself is tracked. */
  const EngineGroupId: string

  /** The `source` tag carried by every diagnostic the advisor publishes. */
  const PromotionDiagnosticSource: string

  /** The command that hands a prompt to the external upgrade tool. */
  const ViewTriggerJavaUpgradeTool: string
}
