/**
 * The build-descriptor range map: for one descriptor, packageId -> the
 * source range of the element that declares it, built from the parsed tree.
 */
module PomData {
  import opened Types
  import opened Utility
  import opened Lexer

  /** One dependency element as read: its package id, optional version text and range. */
  datatype Dependency = Dependency(packageId: string, version: Option<string>, location: Range)

  /** `!n` for an optional offset: absent and 0 are both falsy. */
  predicate FalsyIndex(n: Option<nat>) {
    n.None? || n.value == 0
  }

  /**
   * getRangeOfNode: none when either offset is falsy (0 included); otherwise
   * from the start offset to one past the end offset. `positionAt` is the
   * document's offset -> position map.
   */
  function GetRangeOfNode(node: Node, positionAt: nat -> Position): (r: Option<Range>)
    requires node.Element?
    ensures r.None? <==> FalsyIndex(node.startIndex) || FalsyIndex(node.endIndex)
    ensures r.Some? ==> r.value == Range(positionAt(node.startIndex.value), positionAt(node.endIndex.value + 1))
  {
    if FalsyIndex(node.startIndex) || FalsyIndex(node.endIndex) then None
    else Some(Range(positionAt(node.startIndex.value), positionAt(node.endIndex.value + 1)))
  }

  /**
   * The text of the first child of the unique child with `tag`: that text
   * node's data, or "" when the element is empty or its first child is not
   * text.
   */
  function ChildText(node: Node, tag: string): string
    requires node.Element? && CountTag(node.children, tag) == 1
  {
    GetTextFromNode(FirstChild(GetExactlyOneChildByTag(node, tag).value))
  }

  /**
   * readDependencyNode: none without a range or without exactly one
   * `groupId` and exactly one `artifactId`; the version is present iff there
   * is exactly one `version`.
   */
  function ReadDependencyNode(node: Node, positionAt: nat -> Position): (r: Option<Dependency>)
    requires node.Element?
    ensures r.None? <==>
      || GetRangeOfNode(node, positionAt).None?
      || CountTag(node.children, GroupIdTag) != 1
      || CountTag(node.children, ArtifactIdTag) != 1
    ensures r.Some? ==>
      && r.value.location == GetRangeOfNode(node, positionAt).value
      && r.value.packageId == BuildPackageId(ChildText(node, GroupIdTag), ChildText(node, ArtifactIdTag))
      && (r.value.version.Some? <==> CountTag(node.children, VersionTag) == 1)
      && (r.value.version.Some? ==> r.value.version.value == ChildText(node, VersionTag))
  {
    var range := GetRangeOfNode(node, positionAt);
    if range.None? then None
    else
      var groupId := GetExactlyOneChildByTag(node, GroupIdTag);
      var artifactId := GetExactlyOneChildByTag(node, ArtifactIdTag);
      var version := GetExactlyOneChildByTag(node, VersionTag);
      if groupId.None? || artifactId.None? then None
      else
        var groupIdText := GetTextFromNode(FirstChild(groupId.value));
        var artifactIdText := GetTextFromNode(FirstChild(artifactId.value));
        var versionText := if version.Some? then Some(GetTextFromNode(FirstChild(version.value))) else None;
        Some(Dependency(BuildPackageId(groupIdText, artifactIdText), versionText, range.value))
  }

  predicate AllElements(items: seq<Node>) {
    forall n :: n in items ==> n.Element?
  }

  /** The dependencies read from a section's elements, one per element, in order. */
  function ReadAll(items: seq<Node>, positionAt: nat -> Position): (ds: seq<Option<Dependency>>)
    requires AllElements(items)
    ensures |ds| == |items|
    ensures forall i :: 0 <= i < |items| ==> ds[i] == ReadDependencyNode(items[i], positionAt)
  {
    seq(|items|, i requires 0 <= i < |items| => assert items[i] in items; ReadDependencyNode(items[i], positionAt))
  }

  /** One step of the loop: record when the id is not yet mapped or the entry has a non-empty version. */
  function RecordDependency(m: map<string, Range>, dep: Option<Dependency>): map<string, Range> {
    if dep.Some? && (dep.value.packageId !in m || Truthy(dep.value.version)) then
      m[dep.value.packageId := dep.value.location]
    else m
  }

  /** The loop over a section's dependencies, in order, starting from `m`. */
  function RecordAll(m: map<string, Range>, ds: seq<Option<Dependency>>): map<string, Range> {
    if ds == [] then m
    else RecordDependency(RecordAll(m, ds[..|ds| - 1]), ds[|ds| - 1])
  }

  /** Some read dependency carries the id `k`. */
  predicate Declares(ds: seq<Option<Dependency>>, k: string) {
    exists i :: 0 <= i < |ds| && ds[i].Some? && ds[i].value.packageId == k
  }

  /** The ids mapped after the loop: those mapped before, and those of the readable items. */
  lemma {:induction false} RecordAllKeys(m: map<string, Range>, ds: seq<Option<Dependency>>, k: string)
    ensures k in RecordAll(m, ds) <==> k in m || Declares(ds, k)
  {
    if ds != [] {
      var init := ds[..|ds| - 1];
      assert forall j :: 0 <= j < |init| ==> init[j] == ds[j];
      RecordAllKeys(m, init, k);
      assert Declares(ds, k) <==> Declares(init, k) || (ds[|ds| - 1].Some? && ds[|ds| - 1].value.packageId == k);
    }
  }

  /** An entry without a (non-empty) version never replaces a range already recorded for its id. */
  lemma {:induction false} UnversionedNeverOverrides(m: map<string, Range>, ds: seq<Option<Dependency>>, k: string)
    requires k in m
    requires forall i :: 0 <= i < |ds| && ds[i].Some? && ds[i].value.packageId == k ==> !Truthy(ds[i].value.version)
    ensures k in RecordAll(m, ds) && RecordAll(m, ds)[k] == m[k]
  {
    if ds != [] {
      var init := ds[..|ds| - 1];
      assert forall i :: 0 <= i < |init| ==> init[i] == ds[i];
      UnversionedNeverOverrides(m, init, k);
    }
  }

  /** The last versioned entry for an id decides its range, whatever came before it. */
  lemma {:induction false} LastVersionedWins(m: map<string, Range>, ds: seq<Option<Dependency>>, i: nat)
    requires i < |ds| && ds[i].Some? && Truthy(ds[i].value.version)
    requires forall j :: i < j < |ds| && ds[j].Some? && ds[j].value.packageId == ds[i].value.packageId
                ==> !Truthy(ds[j].value.version)
    ensures ds[i].value.packageId in RecordAll(m, ds)
    ensures RecordAll(m, ds)[ds[i].value.packageId] == ds[i].value.location
  {
    if i < |ds| - 1 {
      var init := ds[..|ds| - 1];
      assert forall j :: 0 <= j < |init| ==> init[j] == ds[j];
      LastVersionedWins(m, init, i);
    }
  }

  /** The key under which the `java.version` property's range is stored. */
  function EngineRangeKey(): string {
    BuildPackageId(EngineGroupId, "*")
  }

  /** The `<dependency>` elements directly under a section element. */
  function SectionItems(section: Option<Node>): (items: seq<Node>)
    requires section.Some? ==> HasChildren(section.value)
    ensures AllElements(items)
  {
    if section.Some? then TagChildren(section.value.children, [DependencyTag]) else []
  }

  /** The dependencies read from a section, in document order. */
  function SectionReads(section: Option<Node>, positionAt: nat -> Position): seq<Option<Dependency>>
    requires section.Some? ==> HasChildren(section.value)
  {
    ReadAll(SectionItems(section), positionAt)
  }

  /** The range of `<properties><java.version>`, when both are unique and it has a range. */
  function JavaVersionRange(project: Node, positionAt: nat -> Position): Option<Range>
    requires project.Element?
  {
    var properties := GetExactlyOneChildByTag(project, PropertiesTag);
    if properties.None? then None
    else
      var javaVersion := GetExactlyOneChildByTag(properties.value, "java.version");
      if javaVersion.None? then None
      else GetRangeOfNode(javaVersion.value, positionAt)
  }

  /** The dependencies read from `<dependencyManagement>`, in document order. */
  function ManagedReads(project: Node, positionAt: nat -> Position): seq<Option<Dependency>>
    requires project.Element?
  {
    SectionReads(GetExactlyOneChildByTag(project, DependencyManagementTag), positionAt)
  }

  /** The dependencies read from `<dependencies>`, in document order. */
  function DeclaredReads(project: Node, positionAt: nat -> Position): seq<Option<Dependency>>
    requires project.Element?
  {
    SectionReads(GetExactlyOneChildByTag(project, DependenciesTag), positionAt)
  }

  /**
   * The map built for the project element: `<dependencyManagement>`
   * entries, then `<dependencies>` entries, then the `java.version` property.
   */
  function ProjectRanges(project: Node, positionAt: nat -> Position): map<string, Range>
    requires project.Element?
  {
    var declared := RecordAll(RecordAll(map[], ManagedReads(project, positionAt)), DeclaredReads(project, positionAt));
    var javaVersion := JavaVersionRange(project, positionAt);
    if javaVersion.Some? then declared[EngineRangeKey() := javaVersion.value] else declared
  }

  /** The whole map built for one descriptor: empty without exactly one `<project>`. */
  function PomRanges(document: Node, positionAt: nat -> Position): map<string, Range>
    requires HasChildren(document)
  {
    var projectNode := GetExactlyOneChildByTag(document, ProjectTag);
    if projectNode.None? then map[] else ProjectRanges(projectNode.value, positionAt)
  }

  /** Without exactly one `<project>` element the map is empty. */
  lemma NoProjectNoRanges(document: Node, positionAt: nat -> Position)
    requires HasChildren(document) && CountTag(document.children, ProjectTag) != 1
    ensures PomRanges(document, positionAt) == map[]
  {
  }

  /**
   * `<dependencies>` is read after `<dependencyManagement>`: its last
   * versioned entry for an id gives that id's range (unless the id is the
   * engine key and a `java.version` range exists).
   */
  lemma DeclaredVersionWins(project: Node, positionAt: nat -> Position, i: nat)
    requires project.Element?
    requires var ds := DeclaredReads(project, positionAt);
      && i < |ds| && ds[i].Some? && Truthy(ds[i].value.version)
      && ds[i].value.packageId != EngineRangeKey()
      && (forall j :: i < j < |ds| && ds[j].Some? && ds[j].value.packageId == ds[i].value.packageId
            ==> !Truthy(ds[j].value.version))
    ensures var d := DeclaredReads(project, positionAt)[i].value;
      d.packageId in ProjectRanges(project, positionAt) && ProjectRanges(project, positionAt)[d.packageId] == d.location
  {
    var managed := RecordAll(map[], ManagedReads(project, positionAt));
    var ds := DeclaredReads(project, positionAt);
    LastVersionedWins(managed, ds, i);
    assert ds[i].value.packageId in RecordAll(managed, ds);
  }

  /**
   * A range recorded from `<dependencyManagement>` survives when every
   * `<dependencies>` entry for the same id is unversioned.
   */
  lemma ManagedRangeKept(project: Node, positionAt: nat -> Position, k: string)
    requires project.Element?
    requires var managed := RecordAll(map[], ManagedReads(project, positionAt));
      var ds := DeclaredReads(project, positionAt);
      && k in managed && k != EngineRangeKey()
      && (forall i :: 0 <= i < |ds| && ds[i].Some? && ds[i].value.packageId == k ==> !Truthy(ds[i].value.version))
    ensures k in ProjectRanges(project, positionAt)
    ensures ProjectRanges(project, positionAt)[k] == RecordAll(map[], ManagedReads(project, positionAt))[k]
  {
    UnversionedNeverOverrides(RecordAll(map[], ManagedReads(project, positionAt)), DeclaredReads(project, positionAt), k);
  }

  /** A well-formed dependency element: group "g", artifact "a", no version. */
  const ExampleDependency := Element(DependencyTag, Some(4), Some(70), [
    Element(GroupIdTag, Some(5), Some(20), [Text("g")]),
    Element(ArtifactIdTag, Some(21), Some(40), [Text("a")])])

  /** ExampleDependency is readable on its own: it declares `g:a`. */
  lemma ExampleDependencyReadable(positionAt: nat -> Position)
    ensures ReadDependencyNode(ExampleDependency, positionAt) == Some(Dependency("g:a", None, Range(positionAt(4), positionAt(71))))
  {
    var groupId := ExampleDependency.children[0];
    var artifactId := ExampleDependency.children[1];
    assert GroupIdTag[0] == 'g' && ArtifactIdTag[0] == 'a' && VersionTag[0] == 'v';
    assert ExampleDependency.children[1..] == [artifactId] && [artifactId][1..] == [];
    assert CountTag([artifactId], GroupIdTag) == 0 + CountTag([], GroupIdTag);
    assert CountTag([artifactId], ArtifactIdTag) == 1 + CountTag([], ArtifactIdTag);
    assert CountTag([artifactId], VersionTag) == 0 + CountTag([], VersionTag);
    assert GetExactlyOneChildByTag(ExampleDependency, GroupIdTag) == Some(groupId);
    assert GetExactlyOneChildByTag(ExampleDependency, ArtifactIdTag) == Some(artifactId);
    assert GetTextFromNode(FirstChild(groupId)) == "g";
    assert GetTextFromNode(FirstChild(artifactId)) == "a";
    assert CountTag(ExampleDependency.children, VersionTag) == 0;
    assert BuildPackageId("g", "a") == "g:a";
  }

  /**
   * The management pass looks for `<dependency>` directly under
   * `<dependencyManagement>`. In a descriptor laid out as Maven's schema
   * prescribes, managed entries sit one level deeper, under
   * `<dependencyManagement><dependencies>`, so ExampleDependency placed
   * there is not recorded and the map stays empty.
   */
  lemma NestedManagedDependencyNotRecorded(positionAt: nat -> Position)
    ensures PomRanges(Document([Element(ProjectTag, Some(1), Some(100), [
              Element(DependencyManagementTag, Some(2), Some(90), [
                Element(DependenciesTag, Some(3), Some(80), [ExampleDependency])])])]), positionAt)
         == map[]
  {
    var dependencies := Element(DependenciesTag, Some(3), Some(80), [ExampleDependency]);
    var management := Element(DependencyManagementTag, Some(2), Some(90), [dependencies]);
    var project := Element(ProjectTag, Some(1), Some(100), [management]);
    var document := Document([project]);
    assert GetExactlyOneChildByTag(document, ProjectTag) == Some(project);
    assert GetExactlyOneChildByTag(project, DependencyManagementTag) == Some(management);
    assert CountTag(project.children, DependenciesTag) == 0;
    assert CountTag(project.children, PropertiesTag) == 0;
    assert TagChildren(management.children, [DependencyTag]) == [];
    assert SectionReads(Some(management), positionAt) == [];
    assert SectionReads(None, positionAt) == [];
    assert JavaVersionRange(project, positionAt) == None;
  }

  /** A `java.version` property with a range is stored under the engine key. */
  lemma JavaVersionStored(project: Node, positionAt: nat -> Position)
    requires project.Element? && JavaVersionRange(project, positionAt).Some?
    ensures EngineRangeKey() in ProjectRanges(project, positionAt)
    ensures ProjectRanges(project, positionAt)[EngineRangeKey()] == JavaVersionRange(project, positionAt).value
  {
  }

  /**
   * One of parsePom's two loops: the section's `<dependency>` children, read
   * in document order and recorded into `ranges`.
   */
  method RecordSection(ranges0: map<string, Range>, section: Option<Node>, positionAt: nat -> Position)
    returns (ranges: map<string, Range>)
    requires section.Some? ==> HasChildren(section.value)
    ensures ranges == RecordAll(ranges0, SectionReads(section, positionAt))
  {
    ranges := ranges0;
    if section.None? {
      return;
    }
    var deps := GetChildrenByTags(section.value, [DependencyTag]);
    ghost var ds := ReadAll(deps, positionAt);
    assert ds == SectionReads(section, positionAt);
    for i := 0 to |deps|
      invariant ranges == RecordAll(ranges0, ds[..i])
    {
      assert ds[..i + 1][..i] == ds[..i];
      assert deps[i] in deps;
      var dep := ReadDependencyNode(deps[i], positionAt);
      assert dep == ds[i];
      ranges := RecordOne(ranges, dep);
    }
    assert ds[..|deps|] == ds;
  }

  /** One iteration of parsePom's loops: record a readable dependency unless an earlier range stands. */
  method RecordOne(ranges0: map<string, Range>, dep: Option<Dependency>) returns (ranges: map<string, Range>)
    ensures ranges == RecordDependency(ranges0, dep)
  {
    ranges := ranges0;
    if dep.Some? && (dep.value.packageId !in ranges || Truthy(dep.value.version)) {
      ranges := ranges[dep.value.packageId := dep.value.location];
    }
  }

  /** The tail of parsePom: the `java.version` property's range goes under the engine key. */
  method RecordJavaVersion(ranges0: map<string, Range>, project: Node, positionAt: nat -> Position)
    returns (ranges: map<string, Range>)
    requires project.Element?
    ensures var javaVersion := JavaVersionRange(project, positionAt);
      ranges == if javaVersion.Some? then ranges0[EngineRangeKey() := javaVersion.value] else ranges0
  {
    ranges := ranges0;
    var propertiesNode := GetExactlyOneChildByTag(project, PropertiesTag);
    if propertiesNode.Some? {
      var javaVersionNode := GetExactlyOneChildByTag(propertiesNode.value, "java.version");
      if javaVersionNode.Some? {
        var range := GetRangeOfNode(javaVersionNode.value, positionAt);
        if range.Some? {
          ranges := ranges[BuildPackageId(EngineGroupId, "*") := range.value];
        }
      }
    }
  }

  /** The body of parsePom after the reset: the whole range map of one document. */
  method ReadPomRanges(document: Node, positionAt: nat -> Position) returns (ranges: map<string, Range>)
    requires document.Document?
    ensures ranges == PomRanges(document, positionAt)
  {
    var projectNode := GetExactlyOneChildByTag(document, ProjectTag);
    if projectNode.None? {
      return map[];
    }
    var project := projectNode.value;
    var dependenciesNode := GetExactlyOneChildByTag(project, DependenciesTag);
    var dependencyManagementNode := GetExactlyOneChildByTag(project, DependencyManagementTag);
    ranges := RecordSection(map[], dependencyManagementNode, positionAt);
    ranges := RecordSection(ranges, dependenciesNode, positionAt);
    ranges := RecordJavaVersion(ranges, project, positionAt);
  }

  class PomDataManager {
    /** descriptor path -> (packageId -> range) */
    var pomMap: map<string, map<string, Range>>

    constructor ()
      ensures pomMap == map[]
    {
      pomMap := map[];
    }

    /** getPomRange: looks the path up as given, without normalizing it. */
    function GetPomRange(pomPath: string, packageId: string): (r: Option<Range>)
      reads this
      ensures r.Some? <==> pomPath in pomMap && packageId in pomMap[pomPath]
      ensures r.Some? ==> r.value == pomMap[pomPath][packageId]
    {
      if pomPath in pomMap && packageId in pomMap[pomPath] then Some(pomMap[pomPath][packageId]) else None
    }

    /**
     * parsePom on an already-parsed document. `normalizePath` and
     * `positionAt` stand for the helpers the source calls. The map of the
     * normalized path is reset and then rebuilt in full; a raw path that
     * differs from its normalized form sees no change through GetPomRange.
     */
    method ParsePom(pomPath: string, normalizePath: string -> string, document: Node, positionAt: nat -> Position)
      requires document.Document?
      modifies this
      ensures pomMap == old(pomMap)[normalizePath(pomPath) := PomRanges(document, positionAt)]
      ensures normalizePath(pomPath) != pomPath ==>
        forall k :: GetPomRange(pomPath, k) == old(GetPomRange(pomPath, k))
    {
      var normalizedPath := normalizePath(pomPath);
      pomMap := pomMap[normalizedPath := map[]];

      var ranges := ReadPomRanges(document, positionAt);
      pomMap := pomMap[normalizedPath := ranges];
    }
  }
}
