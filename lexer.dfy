/**
 * Navigation helpers over an already-parsed markup tree (the parser itself
 * is foreign): select element children by tag name, pick the one child with
 * a tag, and read a text node.
 */
module Lexer {
  import opened Types

  /**
   * A node of the parsed tree. Elements and the document have children;
   * element offsets are optional, as the parser may leave them null.
   */
  datatype Node =
    | Document(children: seq<Node>)
    | Element(tagName: string, startIndex: Option<nat>, endIndex: Option<nat>, children: seq<Node>)
    | Text(data: string)
    | Comment(data: string)

  /** The tag names the build-descriptor reader looks for. */
  const GroupIdTag := "groupId"
  const ArtifactIdTag := "artifactId"
  const VersionTag := "version"
  const DependenciesTag := "dependencies"
  const DependencyManagementTag := "dependencyManagement"
  const ProjectTag := "project"
  const DependencyTag := "dependency"
  const PropertiesTag := "properties"

  predicate HasChildren(n: Node) {
    n.Document? || n.Element?
  }

  predicate IsTagIn(n: Node, tags: seq<string>) {
    n.Element? && n.tagName in tags
  }

  /**
   * The element children whose tag name is listed, in document order.
   * Defined on the last child so that it follows a left-to-right scan.
   */
  function TagChildren(children: seq<Node>, tags: seq<string>): (r: seq<Node>)
    ensures |r| <= |children|
    ensures forall n :: n in r ==> n in children && IsTagIn(n, tags)
    ensures forall n :: n in children && IsTagIn(n, tags) ==> n in r
  {
    if children == [] then []
    else
      var init := children[..|children| - 1];
      var last := children[|children| - 1];
      assert forall n :: n in children ==> n in init || n == last;
      TagChildren(init, tags) + (if IsTagIn(last, tags) then [last] else [])
  }

  /** Selection distributes over concatenation, so the result keeps document order. */
  lemma {:induction false} TagChildrenAppend(a: seq<Node>, b: seq<Node>, tags: seq<string>)
    ensures TagChildren(a + b, tags) == TagChildren(a, tags) + TagChildren(b, tags)
    decreases |b|
  {
    if b != [] {
      var b' := b[..|b| - 1];
      assert (a + b)[..|a + b| - 1] == a + b';
      TagChildrenAppend(a, b', tags);
    } else {
      assert a + b == a;
    }
  }

  /** getChildrenByTags: a scan over the children that pushes each match. */
  method GetChildrenByTags(parent: Node, tags: seq<string>) returns (ret: seq<Node>)
    requires HasChildren(parent)
    ensures ret == TagChildren(parent.children, tags)
  {
    ret := [];
    for i := 0 to |parent.children|
      invariant ret == TagChildren(parent.children[..i], tags)
    {
      var child := parent.children[i];
      assert parent.children[..i + 1][..i] == parent.children[..i];
      if child.Element? && child.tagName in tags {
        ret := ret + [child];
      }
    }
    assert parent.children[..|parent.children|] == parent.children;
  }

  /** An independent count of the element children carrying one tag. */
  function CountTag(children: seq<Node>, tag: string): nat {
    if children == [] then 0
    else (if children[0].Element? && children[0].tagName == tag then 1 else 0) + CountTag(children[1..], tag)
  }

  lemma {:induction false} CountTagAppend(a: seq<Node>, b: seq<Node>, tag: string)
    ensures CountTag(a + b, tag) == CountTag(a, tag) + CountTag(b, tag)
  {
    if a != [] {
      assert (a + b)[1..] == a[1..] + b;
      CountTagAppend(a[1..], b, tag);
    } else {
      assert a + b == b;
    }
  }

  lemma {:induction false} TagChildrenCount(children: seq<Node>, tag: string)
    ensures |TagChildren(children, [tag])| == CountTag(children, tag)
  {
    if children != [] {
      var init := children[..|children| - 1];
      var last := children[|children| - 1];
      TagChildrenCount(init, tag);
      assert children == init + [last];
      CountTagAppend(init, [last], tag);
      assert CountTag([last], tag) == CountTag([], tag) + (if last.Element? && last.tagName == tag then 1 else 0);
    }
  }

  /**
   * getExactlyOneChildByTag: the child with the tag when there is exactly one
   * such child; none when there are zero or several.
   */
  function GetExactlyOneChildByTag(parent: Node, tag: string): (r: Option<Node>)
    requires HasChildren(parent)
    ensures r.Some? <==> CountTag(parent.children, tag) == 1
    ensures r.Some? ==> r.value.Element? && r.value.tagName == tag && r.value in parent.children
    ensures r.Some? ==> forall n :: n in parent.children && n.Element? && n.tagName == tag ==> n == r.value
  {
    var items := TagChildren(parent.children, [tag]);
    TagChildrenCount(parent.children, tag);
    if |items| != 1 then None
    else
      assert items[0] in items;
      assert forall n :: n in parent.children && n.Element? && n.tagName == tag ==> n in items;
      Some(items[0])
  }

  /** The first child of a node, as `node.children[0]` (undefined when there is none). */
  function FirstChild(n: Node): Option<Node>
    requires HasChildren(n)
  {
    if |n.children| > 0 then Some(n.children[0]) else None
  }

  /** getTextFromNode: the data of a text node, else the fallback ("" by default). */
  function GetTextFromNode(node: Option<Node>, fallbackValue: string := ""): string
  {
    if node.Some? && node.value.Text? then node.value.data else fallbackValue
  }
}
