/**
 * The scan: for every project with a build descriptor, a Java-version check
 * and a dependency check per package of every container. Each check decides
 * one registry action, keyed by one package id, on that descriptor's map.
 */
module Upgrade {
  import opened Types
  import opened Utility
  import opened IssueMaps
  import opened Registry
  import opened Metadata

  const EarliestJavaVersionNotToPrompt := 21

  /** What one check does to the registry. */
  datatype Action = NoChange | Add(issue: Issue) | Remove(packageId: string)

  /** The one package id an action touches. */
  function Key(a: Action): string
    requires a != NoChange
  {
    if a.Add? then a.issue.packageId else a.packageId
  }

  /** What a lookup of the touched key yields right after the action. */
  function Verdict(a: Action): Option<Issue>
    requires a != NoChange
  {
    if a.Add? then Some(a.issue) else None
  }

  /** The registry after one action on one descriptor's map. */
  function Apply(list: IssuesList, path: string, a: Action): (r: IssuesList)
    ensures ValidList(list) ==> ValidList(r)
  {
    match a
    case NoChange => list
    case Add(issue) => AddIssueTo(list, path, issue)
    case Remove(k) => RemoveIssueFrom(list, path, k)
  }

  /**
   * The action reaches the registry's mutators and so republishes the
   * file: every add does, and a remove only when the entry is present.
   */
  predicate Effective(list: IssuesList, path: string, a: Action) {
    a.Add? || (a.Remove? && LookupIssue(list, path, a.packageId).Some?)
  }

  /** An action changes only the lookup of its own (descriptor, key) pair, which becomes its verdict. */
  lemma ApplyTouchesOneKey(list: IssuesList, path: string, a: Action, p: string, k: string)
    ensures a != NoChange && p == path && k == Key(a) ==> LookupIssue(Apply(list, path, a), p, k) == Verdict(a)
    ensures a == NoChange || p != path || k != Key(a) ==> LookupIssue(Apply(list, path, a), p, k) == LookupIssue(list, p, k)
  {
  }

  // ---------------------------------------------------------------------
  // The two decisions.

  /**
   * checkJavaVersion: nothing for an absent or zero MaxSourceVersion; the
   * engine issue below 21; its removal from 21 on.
   */
  function JavaVersionAction(javaVersion: Option<int>): (a: Action)
    ensures a == NoChange <==> javaVersion.None? || javaVersion.value == 0
    ensures a.Add? <==> javaVersion.Some? && javaVersion.value != 0 && javaVersion.value < EarliestJavaVersionNotToPrompt
    ensures a.Remove? <==> javaVersion.Some? && javaVersion.value >= EarliestJavaVersionNotToPrompt
    ensures a != NoChange ==> Key(a) == EngineGroupId
    ensures a.Add? ==>
      && a.issue.reason == EngineTooOld && a.issue.packageDisplayName.None?
      && CanonicalNumberText(a.issue.currentVersion) && ParseNumber(a.issue.currentVersion) == javaVersion.value
      && a.issue.suggestedVersion == "21"
  {
    if javaVersion.None? || javaVersion.value == 0 then NoChange
    else if javaVersion.value < EarliestJavaVersionNotToPrompt then
      NumberRoundTrip(javaVersion.value);
      assert NatToString(2) == "2";
      assert NumberToString(EarliestJavaVersionNotToPrompt) == "21";
      Add(Issue(EngineGroupId, None, EngineTooOld, NumberToString(javaVersion.value), NumberToString(EarliestJavaVersionNotToPrompt)))
    else Remove(EngineGroupId)
  }

  /** The result of `semver.coerce`: the three numeric components. */
  datatype SemVer = SemVer(major: nat, minor: nat, patch: nat)

  /** The two package properties the check reads, `maven.version` and `maven.groupId`. */
  datatype PackageData = PackageData(version: Option<string>, groupId: Option<string>)

  /**
   * checkDependencyVersion. `coerce` and `satisfies` stand for the semver
   * library. Skips when the version, the group id or its metadata is
   * missing; otherwise removes the group's issue when the version does not
   * coerce or satisfies the supported range, and adds an END_OF_LIFE issue
   * when it does not.
   */
  function DependencyAction(
    pkg: PackageData, table: DependencyCheckMetadata,
    coerce: string -> Option<SemVer>, satisfies: (SemVer, string) -> bool): (a: Action)
    ensures a == NoChange <==>
      !Truthy(pkg.version) || !Truthy(pkg.groupId) || DependencyMetadata(table, pkg.groupId.value).None?
    ensures a != NoChange ==> Key(a) == pkg.groupId.value
    ensures a != NoChange ==>
      (a.Add? <==> coerce(pkg.version.value).Some?
                   && !satisfies(coerce(pkg.version.value).value, DependencyMetadata(table, pkg.groupId.value).value.supportedVersion))
    ensures a.Add? ==> a.issue == Issue(
      pkg.groupId.value, Some(DependencyMetadata(table, pkg.groupId.value).value.name),
      EndOfLife, pkg.version.value, "latest")
  {
    if !Truthy(pkg.version) || !Truthy(pkg.groupId) then NoChange
    else
      var groupId := pkg.groupId.value;
      var supportedVersionDefinition := DependencyMetadata(table, groupId);
      if supportedVersionDefinition.None? then NoChange
      else
        var currentVersion := coerce(pkg.version.value);
        if currentVersion.None? then Remove(groupId)
        else if !satisfies(currentVersion.value, supportedVersionDefinition.value.supportedVersion) then
          Add(Issue(groupId, Some(supportedVersionDefinition.value.name), EndOfLife, pkg.version.value, "latest"))
        else Remove(groupId)
  }

  /** A version that does not coerce never raises an issue. */
  lemma UncoercibleNeverRaises(
    pkg: PackageData, table: DependencyCheckMetadata,
    coerce: string -> Option<SemVer>, satisfies: (SemVer, string) -> bool)
    requires Truthy(pkg.version) && coerce(pkg.version.value).None?
    ensures !DependencyAction(pkg, table, coerce, satisfies).Add?
  {
  }

  /** With an empty table (as after an unparsable payload) no dependency outside the engine group is acted on. */
  lemma EmptyTableNoDependencyActions(
    pkg: PackageData, table: DependencyCheckMetadata,
    coerce: string -> Option<SemVer>, satisfies: (SemVer, string) -> bool)
    requires table == map[]
    requires pkg.groupId.Some? && pkg.groupId.value != EngineGroupId
    ensures DependencyAction(pkg, table, coerce, satisfies) == NoChange
  {
  }

  // ---------------------------------------------------------------------
  // The scan as a sequence of (descriptor, action) steps.

  datatype NodeKind = Container | OtherKind

  /** A child node of a project; for a container, `packages` is what expanding it returns. */
  datatype ChildNode = ChildNode(kind: NodeKind, packages: seq<PackageData>)

  /** A project as the language server reports it. */
  datatype ProjectData = ProjectData(pomPath: Option<string>, maxSourceVersion: Option<int>, children: seq<ChildNode>)

  type Step = (string, Action)

  /** The registry after the steps, applied in order. */
  function ApplyAll(list: IssuesList, plan: seq<Step>): (r: IssuesList)
    ensures ValidList(list) ==> ValidList(r)
  {
    if plan == [] then list
    else Apply(ApplyAll(list, plan[..|plan| - 1]), plan[|plan| - 1].0, plan[|plan| - 1].1)
  }

  lemma {:induction false} ApplyAllAppend(list: IssuesList, a: seq<Step>, b: seq<Step>)
    ensures ApplyAll(list, a + b) == ApplyAll(ApplyAll(list, a), b)
  {
    if b != [] {
      assert (a + b)[..|a + b| - 1] == a + b[..|b| - 1];
      ApplyAllAppend(list, a, b[..|b| - 1]);
    } else {
      assert a + b == a;
    }
  }

  /** The dependency checks of one container's packages, in order. */
  function PackagesPlan(
    pomPath: string, packages: seq<PackageData>, table: DependencyCheckMetadata,
    coerce: string -> Option<SemVer>, satisfies: (SemVer, string) -> bool): (plan: seq<Step>)
    ensures |plan| == |packages|
    ensures forall i :: 0 <= i < |packages| ==> plan[i] == (pomPath, DependencyAction(packages[i], table, coerce, satisfies))
  {
    if packages == [] then []
    else
      PackagesPlan(pomPath, packages[..|packages| - 1], table, coerce, satisfies)
        + [(pomPath, DependencyAction(packages[|packages| - 1], table, coerce, satisfies))]
  }

  /** Some container child of `children` lists `pkg`. */
  predicate InContainer(children: seq<ChildNode>, pkg: PackageData) {
    exists c :: c in children && c.kind == Container && pkg in c.packages
  }

  /** The dependency checks of all container children, in order; other children are not expanded. */
  function ContainersPlan(
    pomPath: string, children: seq<ChildNode>, table: DependencyCheckMetadata,
    coerce: string -> Option<SemVer>, satisfies: (SemVer, string) -> bool): seq<Step>
  {
    if children == [] then []
    else
      var last := children[|children| - 1];
      ContainersPlan(pomPath, children[..|children| - 1], table, coerce, satisfies)
        + if last.kind == Container then PackagesPlan(pomPath, last.packages, table, coerce, satisfies) else []
  }

  /** Every step of a project's container checks is the check of a package listed by one of its containers. */
  lemma {:induction false} ContainersPlanSound(
    pomPath: string, children: seq<ChildNode>, table: DependencyCheckMetadata,
    coerce: string -> Option<SemVer>, satisfies: (SemVer, string) -> bool)
    ensures forall s :: s in ContainersPlan(pomPath, children, table, coerce, satisfies) ==>
      s.0 == pomPath && exists pkg :: InContainer(children, pkg) && s.1 == DependencyAction(pkg, table, coerce, satisfies)
  {
    if children != [] {
      var init := children[..|children| - 1];
      var last := children[|children| - 1];
      ContainersPlanSound(pomPath, init, table, coerce, satisfies);
      assert forall pkg :: InContainer(init, pkg) ==> InContainer(children, pkg) by {
        forall pkg | InContainer(init, pkg) ensures InContainer(children, pkg) {
          var c :| c in init && c.kind == Container && pkg in c.packages;
          assert c in children;
        }
      }
      if last.kind == Container {
        var back := PackagesPlan(pomPath, last.packages, table, coerce, satisfies);
        forall s | s in back
          ensures s.0 == pomPath && exists pkg :: InContainer(children, pkg) && s.1 == DependencyAction(pkg, table, coerce, satisfies)
        {
          var i :| 0 <= i < |back| && back[i] == s;
          assert last.packages[i] in last.packages && last in children;
          assert InContainer(children, last.packages[i]);
        }
      }
    }
  }

  /** Every package listed by a container child is checked. */
  lemma {:induction false} ContainersPlanComplete(
    pomPath: string, children: seq<ChildNode>, table: DependencyCheckMetadata,
    coerce: string -> Option<SemVer>, satisfies: (SemVer, string) -> bool)
    ensures forall pkg :: InContainer(children, pkg) ==>
      (pomPath, DependencyAction(pkg, table, coerce, satisfies)) in ContainersPlan(pomPath, children, table, coerce, satisfies)
  {
    if children != [] {
      var init := children[..|children| - 1];
      var last := children[|children| - 1];
      ContainersPlanComplete(pomPath, init, table, coerce, satisfies);
      forall pkg | InContainer(children, pkg)
        ensures (pomPath, DependencyAction(pkg, table, coerce, satisfies)) in ContainersPlan(pomPath, children, table, coerce, satisfies)
      {
        var c :| c in children && c.kind == Container && pkg in c.packages;
        if c == last {
          var i :| 0 <= i < |last.packages| && last.packages[i] == pkg;
          assert PackagesPlan(pomPath, last.packages, table, coerce, satisfies)[i] == (pomPath, DependencyAction(pkg, table, coerce, satisfies));
        } else {
          var j :| 0 <= j < |children| && children[j] == c;
          assert j < |init| && init[j] == c;
          assert InContainer(init, pkg);
        }
      }
    }
  }

  /** The checks of one project: none without a descriptor path, else the Java check then the containers. */
  function ProjectPlan(
    project: ProjectData, table: DependencyCheckMetadata,
    coerce: string -> Option<SemVer>, satisfies: (SemVer, string) -> bool): seq<Step>
  {
    if !Truthy(project.pomPath) then []
    else
      [(project.pomPath.value, JavaVersionAction(project.maxSourceVersion))]
        + ContainersPlan(project.pomPath.value, project.children, table, coerce, satisfies)
  }

  /** The checks of all projects, in order. */
  function ScanPlan(
    projects: seq<ProjectData>, table: DependencyCheckMetadata,
    coerce: string -> Option<SemVer>, satisfies: (SemVer, string) -> bool): (plan: seq<Step>)
    ensures forall s :: s in plan ==> exists p :: p in projects && Truthy(p.pomPath) && s.0 == p.pomPath.value
    ensures forall p :: p in projects && Truthy(p.pomPath) ==> (p.pomPath.value, JavaVersionAction(p.maxSourceVersion)) in plan
  {
    if projects == [] then []
    else
      var init := projects[..|projects| - 1];
      var last := projects[|projects| - 1];
      assert forall p :: p in init ==> p in projects;
      assert forall p :: p in projects ==> p in init || p == last;
      if Truthy(last.pomPath) then
        ContainersPlanSound(last.pomPath.value, last.children, table, coerce, satisfies);
        ScanPlan(init, table, coerce, satisfies) + ProjectPlan(last, table, coerce, satisfies)
      else
        ScanPlan(init, table, coerce, satisfies) + ProjectPlan(last, table, coerce, satisfies)
  }

  // ---------------------------------------------------------------------
  // Properties of a scan.

  /** The step touches the (descriptor, key) pair. */
  predicate Touches(s: Step, p: string, k: string) {
    s.0 == p && s.1 != NoChange && Key(s.1) == k
  }

  /** Any two steps that touch the same pair do the same thing. */
  predicate Consistent(plan: seq<Step>) {
    forall i, j :: 0 <= i < |plan| && 0 <= j < |plan| && plan[i].0 == plan[j].0
      && plan[i].1 != NoChange && plan[j].1 != NoChange && Key(plan[i].1) == Key(plan[j].1)
      ==> plan[i].1 == plan[j].1
  }

  /**
   * In a consistent plan the final lookup of a pair is the verdict of any
   * step touching it, and the starting value when no step touches it.
   */
  lemma {:induction false} LookupAfterConsistent(list: IssuesList, plan: seq<Step>, p: string, k: string)
    requires Consistent(plan)
    ensures forall s :: s in plan && Touches(s, p, k) ==> LookupIssue(ApplyAll(list, plan), p, k) == Verdict(s.1)
    ensures (forall s :: s in plan ==> !Touches(s, p, k)) ==> LookupIssue(ApplyAll(list, plan), p, k) == LookupIssue(list, p, k)
  {
    if plan != [] {
      var init := plan[..|plan| - 1];
      var last := plan[|plan| - 1];
      assert Consistent(init) by {
        forall i, j | 0 <= i < |init| && 0 <= j < |init| ensures init[i] == plan[i] && init[j] == plan[j] { }
      }
      LookupAfterConsistent(list, init, p, k);
      ApplyTouchesOneKey(ApplyAll(list, init), last.0, last.1, p, k);
      forall s | s in plan && Touches(s, p, k)
        ensures LookupIssue(ApplyAll(list, plan), p, k) == Verdict(s.1)
      {
        var i :| 0 <= i < |plan| && plan[i] == s;
        if !Touches(last, p, k) {
          assert s in init by { assert i < |init| && init[i] == s; }
        } else {
          assert plan[|plan| - 1] == last;
        }
      }
      if forall s :: s in plan ==> !Touches(s, p, k) {
        assert !Touches(last, p, k);
        assert forall s :: s in init ==> s in plan;
      }
    }
  }

  /**
   * The order of a consistent scan does not matter: any reordering of its
   * steps leaves every lookup the same.
   */
  lemma OrderIndependent(list: IssuesList, plan1: seq<Step>, plan2: seq<Step>, p: string, k: string)
    requires multiset(plan1) == multiset(plan2) && Consistent(plan1)
    ensures LookupIssue(ApplyAll(list, plan1), p, k) == LookupIssue(ApplyAll(list, plan2), p, k)
  {
    assert forall s :: s in plan1 <==> s in plan2 by {
      forall s ensures s in plan1 <==> s in plan2 {
        assert s in plan1 <==> s in multiset(plan1);
        assert s in plan2 <==> s in multiset(plan2);
      }
    }
    assert Consistent(plan2) by {
      forall i, j | 0 <= i < |plan2| && 0 <= j < |plan2| && plan2[i].0 == plan2[j].0
        && plan2[i].1 != NoChange && plan2[j].1 != NoChange && Key(plan2[i].1) == Key(plan2[j].1)
        ensures plan2[i].1 == plan2[j].1
      {
        assert plan2[i] in plan1 && plan2[j] in plan1;
        var i1 :| 0 <= i1 < |plan1| && plan1[i1] == plan2[i];
        var j1 :| 0 <= j1 < |plan1| && plan1[j1] == plan2[j];
      }
    }
    LookupAfterConsistent(list, plan1, p, k);
    LookupAfterConsistent(list, plan2, p, k);
    if exists s :: s in plan1 && Touches(s, p, k) {
      var s :| s in plan1 && Touches(s, p, k);
      assert s in plan2;
    }
  }

  /** An action whose verdict already stands leaves the registry as it is. */
  lemma ApplySettled(list: IssuesList, path: string, a: Action)
    requires a != NoChange ==> LookupIssue(list, path, Key(a)) == Verdict(a)
    ensures Apply(list, path, a) == list
  {
    if a.Add? {
      PutSame(list[path], a.issue.packageId, a.issue);
    }
  }

  /** A plan whose every verdict already stands changes nothing. */
  lemma {:induction false} SettledPlanFixed(list: IssuesList, plan: seq<Step>)
    requires forall s :: s in plan && s.1 != NoChange ==> LookupIssue(list, s.0, Key(s.1)) == Verdict(s.1)
    ensures ApplyAll(list, plan) == list
  {
    if plan != [] {
      var init := plan[..|plan| - 1];
      var last := plan[|plan| - 1];
      assert forall s :: s in init ==> s in plan;
      SettledPlanFixed(list, init);
      ApplySettled(list, last.0, last.1);
    }
  }

  /** Running a consistent scan a second time leaves the registry exactly as the first run did. */
  lemma RescanIdempotent(list: IssuesList, plan: seq<Step>)
    requires Consistent(plan)
    ensures ApplyAll(ApplyAll(list, plan), plan) == ApplyAll(list, plan)
  {
    forall s | s in plan && s.1 != NoChange
      ensures LookupIssue(ApplyAll(list, plan), s.0, Key(s.1)) == Verdict(s.1)
    {
      LookupAfterConsistent(list, plan, s.0, Key(s.1));
      assert Touches(s, s.0, Key(s.1));
    }
    SettledPlanFixed(ApplyAll(list, plan), plan);
  }

  /**
   * Dependency issues are keyed by group id, so two packages of one group
   * whose checks disagree make the outcome depend on the order of the
   * checks: the later one wins.
   */
  lemma SameGroupOrderMatters(list: IssuesList, pomPath: string, groupId: string, name: string)
    ensures var first := Issue(groupId, Some(name), EndOfLife, "1.0", "latest");
      var second := Issue(groupId, Some(name), EndOfLife, "2.0", "latest");
      var plan1 := [(pomPath, Add(first)), (pomPath, Add(second))];
      var plan2 := [(pomPath, Add(second)), (pomPath, Add(first))];
      && multiset(plan1) == multiset(plan2)
      && LookupIssue(ApplyAll(list, plan1), pomPath, groupId) == Some(second)
      && LookupIssue(ApplyAll(list, plan2), pomPath, groupId) == Some(first)
  {
    var first := Issue(groupId, Some(name), EndOfLife, "1.0", "latest");
    var second := Issue(groupId, Some(name), EndOfLife, "2.0", "latest");
    var plan1 := [(pomPath, Add(first)), (pomPath, Add(second))];
    var plan2 := [(pomPath, Add(second)), (pomPath, Add(first))];
    assert plan1[..1] == [(pomPath, Add(first))] && plan1[..1][..0] == [];
    assert plan2[..1] == [(pomPath, Add(second))] && plan2[..1][..0] == [];
  }

  /** A project whose descriptor path is missing or empty contributes no step. */
  lemma ProjectWithoutPomSkipped(
    project: ProjectData, table: DependencyCheckMetadata,
    coerce: string -> Option<SemVer>, satisfies: (SemVer, string) -> bool)
    requires !Truthy(project.pomPath)
    ensures ProjectPlan(project, table, coerce, satisfies) == []
  {
  }

  // ---------------------------------------------------------------------
  // The manager, over the shared registry and metadata store.

  class UpgradeManager {
    const issueManager: IssueManager
    const metadataManager: MetadataManager

    constructor (issueManager: IssueManager, metadataManager: MetadataManager)
      ensures this.issueManager == issueManager && this.metadataManager == metadataManager
    {
      this.issueManager := issueManager;
      this.metadataManager := metadataManager;
    }

    /** The objects a check may change: the registry and its two displays. */
    ghost predicate Valid()
      reads this, issueManager, issueManager.diagnostics, issueManager.notifications
    {
      issueManager.Valid()
    }

    method CheckJavaVersion(maxSourceVersion: Option<int>, pomPath: string)
      requires Valid()
      modifies issueManager, issueManager.diagnostics, issueManager.notifications
      ensures Valid()
      ensures issueManager.issuesList == Apply(old(issueManager.issuesList), pomPath, JavaVersionAction(maxSourceVersion))
      ensures Effective(old(issueManager.issuesList), pomPath, JavaVersionAction(maxSourceVersion)) ==>
        issueManager.notifications.RefreshedFrom(
          old(issueManager.notifications.hasShown), old(issueManager.notifications.shown), issueManager.issuesList[pomPath])
      ensures !Effective(old(issueManager.issuesList), pomPath, JavaVersionAction(maxSourceVersion)) ==>
        && issueManager.refreshes == old(issueManager.refreshes)
        && issueManager.diagnostics.collection == old(issueManager.diagnostics.collection)
        && issueManager.notifications.hasShown == old(issueManager.notifications.hasShown)
        && issueManager.notifications.shown == old(issueManager.notifications.shown)
      ensures issueManager.notifications.LatchedFrom(old(issueManager.notifications.hasShown), old(issueManager.notifications.shown))
    {
      ghost var action := JavaVersionAction(maxSourceVersion);
      var javaVersion := maxSourceVersion;
      if javaVersion.None? || javaVersion.value == 0 {
        return;
      }
      if javaVersion.value < EarliestJavaVersionNotToPrompt {
        var issue := Issue(
          EngineGroupId, None, EngineTooOld,
          NumberToString(javaVersion.value), NumberToString(EarliestJavaVersionNotToPrompt));
        assert action == Add(issue);
        issueManager.AddIssue(pomPath, issue);
      } else {
        assert action == Remove(EngineGroupId);
        issueManager.RemoveIssue(pomPath, EngineGroupId);
      }
    }

    method CheckDependencyVersion(
      data: PackageData, dependingPomPath: string,
      coerce: string -> Option<SemVer>, satisfies: (SemVer, string) -> bool)
      requires Valid()
      modifies issueManager, issueManager.diagnostics, issueManager.notifications
      ensures Valid()
      ensures issueManager.issuesList
           == Apply(old(issueManager.issuesList), dependingPomPath, DependencyAction(data, metadataManager.dependencyCheckMetadata, coerce, satisfies))
      ensures Effective(old(issueManager.issuesList), dependingPomPath, DependencyAction(data, metadataManager.dependencyCheckMetadata, coerce, satisfies)) ==>
        issueManager.notifications.RefreshedFrom(
          old(issueManager.notifications.hasShown), old(issueManager.notifications.shown), issueManager.issuesList[dependingPomPath])
      ensures !Effective(old(issueManager.issuesList), dependingPomPath, DependencyAction(data, metadataManager.dependencyCheckMetadata, coerce, satisfies)) ==>
        && issueManager.refreshes == old(issueManager.refreshes)
        && issueManager.diagnostics.collection == old(issueManager.diagnostics.collection)
        && issueManager.notifications.hasShown == old(issueManager.notifications.hasShown)
        && issueManager.notifications.shown == old(issueManager.notifications.shown)
      ensures issueManager.notifications.LatchedFrom(old(issueManager.notifications.hasShown), old(issueManager.notifications.shown))
    {
      ghost var action := DependencyAction(data, metadataManager.dependencyCheckMetadata, coerce, satisfies);
      var versionString := data.version;
      var groupId := data.groupId;
      if !Truthy(versionString) || !Truthy(groupId) {
        return;
      }
      var supportedVersionDefinition := metadataManager.GetDependencyMetadata(groupId.value);
      if supportedVersionDefinition.None? {
        return;
      }
      var currentVersion := coerce(versionString.value);
      if currentVersion.None? {
        issueManager.RemoveIssue(dependingPomPath, groupId.value);
        return;
      }
      if !satisfies(currentVersion.value, supportedVersionDefinition.value.supportedVersion) {
        var issue := Issue(
          groupId.value, Some(supportedVersionDefinition.value.name),
          EndOfLife, versionString.value, "latest");
        issueManager.AddIssue(dependingPomPath, issue);
      } else {
        issueManager.RemoveIssue(dependingPomPath, groupId.value);
      }
    }

    /** The per-container callback: checks the container's packages in order. */
    method CheckContainer(
      packages: seq<PackageData>, pomPath: string,
      coerce: string -> Option<SemVer>, satisfies: (SemVer, string) -> bool)
      requires Valid()
      modifies issueManager, issueManager.diagnostics, issueManager.notifications
      ensures Valid()
      ensures issueManager.issuesList
           == ApplyAll(old(issueManager.issuesList), PackagesPlan(pomPath, packages, metadataManager.dependencyCheckMetadata, coerce, satisfies))
      ensures issueManager.notifications.LatchedFrom(old(issueManager.notifications.hasShown), old(issueManager.notifications.shown))
    {
      ghost var list0 := issueManager.issuesList;
      for i := 0 to |packages|
        invariant Valid()
        invariant issueManager.notifications.LatchedFrom(old(issueManager.notifications.hasShown), old(issueManager.notifications.shown))
        invariant issueManager.issuesList == ApplyAll(list0, PackagesPlan(pomPath, packages[..i], metadataManager.dependencyCheckMetadata, coerce, satisfies))
      {
        assert packages[..i + 1][..i] == packages[..i];
        CheckDependencyVersion(packages[i], pomPath, coerce, satisfies);
      }
      assert packages[..|packages|] == packages;
    }

    /** The container children of a project, each checked in order; other children are skipped. */
    method CheckContainers(
      children: seq<ChildNode>, pomPath: string,
      coerce: string -> Option<SemVer>, satisfies: (SemVer, string) -> bool)
      requires Valid()
      modifies issueManager, issueManager.diagnostics, issueManager.notifications
      ensures Valid()
      ensures issueManager.issuesList
           == ApplyAll(old(issueManager.issuesList), ContainersPlan(pomPath, children, metadataManager.dependencyCheckMetadata, coerce, satisfies))
      ensures issueManager.notifications.LatchedFrom(old(issueManager.notifications.hasShown), old(issueManager.notifications.shown))
    {
      ghost var list0 := issueManager.issuesList;
      ghost var table := metadataManager.dependencyCheckMetadata;
      for i := 0 to |children|
        invariant Valid()
        invariant issueManager.notifications.LatchedFrom(old(issueManager.notifications.hasShown), old(issueManager.notifications.shown))
        invariant issueManager.issuesList == ApplyAll(list0, ContainersPlan(pomPath, children[..i], table, coerce, satisfies))
      {
        ghost var done := ContainersPlan(pomPath, children[..i], table, coerce, satisfies);
        assert children[..i + 1][..i] == children[..i];
        if children[i].kind == Container {
          ghost var step := PackagesPlan(pomPath, children[i].packages, table, coerce, satisfies);
          assert ContainersPlan(pomPath, children[..i + 1], table, coerce, satisfies) == done + step;
          CheckContainer(children[i].packages, pomPath, coerce, satisfies);
          ApplyAllAppend(list0, done, step);
        } else {
          assert ContainersPlan(pomPath, children[..i + 1], table, coerce, satisfies) == done + [];
          assert done + [] == done;
        }
      }
      assert children[..|children|] == children;
    }

    /** The per-project callback: skips a project without a descriptor path. */
    method CheckProject(
      project: ProjectData,
      coerce: string -> Option<SemVer>, satisfies: (SemVer, string) -> bool)
      requires Valid()
      modifies issueManager, issueManager.diagnostics, issueManager.notifications
      ensures Valid()
      ensures issueManager.issuesList
           == ApplyAll(old(issueManager.issuesList), ProjectPlan(project, metadataManager.dependencyCheckMetadata, coerce, satisfies))
      ensures issueManager.notifications.LatchedFrom(old(issueManager.notifications.hasShown), old(issueManager.notifications.shown))
    {
      var pomPath := project.pomPath;
      if !Truthy(pomPath) {
        return;
      }
      ghost var list0 := issueManager.issuesList;
      ghost var head: seq<Step> := [(pomPath.value, JavaVersionAction(project.maxSourceVersion))];
      CheckJavaVersion(project.maxSourceVersion, pomPath.value);
      assert head[..0] == [];
      assert issueManager.issuesList == ApplyAll(list0, head);
      CheckContainers(project.children, pomPath.value, coerce, satisfies);
      ApplyAllAppend(list0, head, ContainersPlan(pomPath.value, project.children, metadataManager.dependencyCheckMetadata, coerce, satisfies));
    }

    /**
     * checkUpgradableComponents for one workspace folder. `ready`,
     * `hasJavaError` and `projects` are the language server's answers.
     */
    method CheckUpgradableComponents(
      ready: bool, hasJavaError: bool, projects: seq<ProjectData>,
      coerce: string -> Option<SemVer>, satisfies: (SemVer, string) -> bool)
      requires Valid()
      modifies issueManager, issueManager.diagnostics, issueManager.notifications
      ensures Valid()
      ensures !ready || hasJavaError ==> unchanged(issueManager, issueManager.diagnostics, issueManager.notifications)
      ensures ready && !hasJavaError ==>
        issueManager.issuesList == ApplyAll(old(issueManager.issuesList), ScanPlan(projects, metadataManager.dependencyCheckMetadata, coerce, satisfies))
      ensures issueManager.notifications.LatchedFrom(old(issueManager.notifications.hasShown), old(issueManager.notifications.shown))
    {
      if !ready {
        return;
      }
      if hasJavaError {
        return;
      }
      ghost var list0 := issueManager.issuesList;
      for i := 0 to |projects|
        invariant Valid()
        invariant issueManager.notifications.LatchedFrom(old(issueManager.notifications.hasShown), old(issueManager.notifications.shown))
        invariant issueManager.issuesList == ApplyAll(list0, ScanPlan(projects[..i], metadataManager.dependencyCheckMetadata, coerce, satisfies))
      {
        assert projects[..i + 1][..i] == projects[..i];
        CheckProject(projects[i], coerce, satisfies);
        ApplyAllAppend(list0,
          ScanPlan(projects[..i], metadataManager.dependencyCheckMetadata, coerce, satisfies),
          ProjectPlan(projects[i], metadataManager.dependencyCheckMetadata, coerce, satisfies));
      }
      assert projects[..|projects|] == projects;
    }
  }
}
