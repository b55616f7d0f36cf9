/**
 * A parent of the tree (src/parentnode.py): an element whose content is the
 * concatenation of its children's HTML. This module also holds `Serialize`, the
 * `to_html` of any node, since a parent's rendering dispatches to its children's.
 */
module ParentNodes {
  import opened Wrappers
  import opened HtmlNodes
  import opened LeafNodes

  /** The messages of the `ValueError`s a parent raises. */
  const TagRequired := "tag is required"
  const ChildrenRequired := "children is required"

  /** A parent is built with its value forced to `None` and no attributes by default. */
  lemma ParentHasNoValue(tag: Option<string>, children: Children, props: Option<Props>)
    ensures ParentNode(tag, children, props).Value() == None
    ensures ParentNode(tag, children, props).Children() == children
    ensures ParentNode(tag, children).props == None
  {
  }

  /** The concatenation of a sequence of strings, in order. */
  function Concat(parts: seq<string>): string
    decreases |parts|
  {
    if parts == [] then "" else parts[0] + Concat(parts[1..])
  }

  /**
   * The `for` loop of `to_html` over the children's results: the first raised
   * error stops it, otherwise their HTML is appended in order.
   */
  function JoinResults(results: seq<Result<string, Error>>): Result<string, Error>
    decreases |results|
  {
    if results == [] then Success("")
    else
      match JoinResults(results[..|results| - 1])
      case Failure(e) => Failure(e)
      case Success(front) =>
        match results[|results| - 1]
        case Failure(e) => Failure(e)
        case Success(html) => Success(front + html)
  }

  /**
   * `to_html` of any node: the base class raises `NotImplementedError`, a leaf
   * renders itself, and a parent checks its tag, then its children, then
   * wraps their rendering in its tag. A parent's attributes are not rendered.
   */
  function Serialize(n: Node): Result<string, Error>
    decreases n
  {
    match n
    case HtmlNode(_, _, _, _) => BaseToHtml(n)
    case LeafNode(tag, value, props) => LeafToHtml(tag, value, props)
    case ParentNode(tag, children, _) =>
      if tag.None? then Failure(ValueError(TagRequired))
      else if children.AbsentChildren? then Failure(ValueError(ChildrenRequired))
      else
        var cs := children.nodes;
        Wrap(tag.value, JoinResults(seq(|cs|, i requires 0 <= i < |cs| => Serialize(cs[i]))))
  }

  /** The children's joined HTML between `<t>` and `</t>`, or the error a child raised. */
  function Wrap(t: string, inner: Result<string, Error>): Result<string, Error> {
    match inner
    case Failure(e) => Failure(e)
    case Success(html) => Success("<" + t + ">" + html + CloseTag(t))
  }

  /**
   * The results of serialising each child, in order. `Serialize` writes the same
   * comprehension out rather than calling this function: a call through a
   * `seq<Node>` argument would not be known to decrease the node being serialised.
   */
  function ChildResults(cs: seq<Node>): (rs: seq<Result<string, Error>>)
    ensures |rs| == |cs|
    ensures forall i | 0 <= i < |cs| :: rs[i] == Serialize(cs[i])
  {
    seq(|cs|, i requires 0 <= i < |cs| => Serialize(cs[i]))
  }

  /** The HTML each result carries, "" for a failure. */
  function Outputs(results: seq<Result<string, Error>>): (out: seq<string>)
    ensures |out| == |results|
    ensures forall i | 0 <= i < |results| :: out[i] == results[i].GetOr("")
  {
    seq(|results|, i requires 0 <= i < |results| => results[i].GetOr(""))
  }

  /** Concatenation is compositional at the end. */
  lemma {:induction false} ConcatSnoc(parts: seq<string>, last: string)
    ensures Concat(parts + [last]) == Concat(parts) + last
    decreases |parts|
  {
    if parts == [] {
      assert [] + [last] == [last];
    } else {
      assert (parts + [last])[1..] == parts[1..] + [last];
      ConcatSnoc(parts[1..], last);
    }
  }

  /**
   * The join succeeds exactly when every result does, and then yields their
   * HTML concatenated in order; otherwise it yields the first error.
   */
  lemma {:induction false} JoinResultsSpec(results: seq<Result<string, Error>>)
    ensures JoinResults(results).Success? <==> forall i | 0 <= i < |results| :: results[i].Success?
    ensures JoinResults(results).Success? ==> JoinResults(results).value == Concat(Outputs(results))
    ensures JoinResults(results).Failure? ==>
              exists i | 0 <= i < |results| ::
                results[i] == Failure(JoinResults(results).error)
                && forall j | 0 <= j < i :: results[j].Success?
    decreases |results|
  {
    if results != [] {
      var k := |results| - 1;
      var front := results[..k];
      JoinResultsSpec(front);
      assert forall i | 0 <= i < k :: front[i] == results[i];
      if JoinResults(front).Success? && results[k].Success? {
        assert Outputs(results) == Outputs(front) + [results[k].value];
        ConcatSnoc(Outputs(front), results[k].value);
      }
    }
  }

  /** One more step of the loop: the next result either stops it with its error or extends the HTML. */
  lemma JoinResultsStep(results: seq<Result<string, Error>>, i: nat)
    requires i < |results| && JoinResults(results[..i]).Success?
    ensures results[i].Failure? ==> JoinResults(results[..i + 1]) == Failure(results[i].error)
    ensures results[i].Success? ==>
              JoinResults(results[..i + 1]) == Success(JoinResults(results[..i]).value + results[i].value)
  {
    assert results[..i + 1][..i] == results[..i];
  }

  /** Once a prefix of the results fails, the whole join fails with the same error. */
  lemma {:induction false} JoinResultsFailurePersists(results: seq<Result<string, Error>>, j: nat)
    requires j <= |results|
    requires JoinResults(results[..j]).Failure?
    ensures JoinResults(results) == JoinResults(results[..j])
    decreases |results| - j
  {
    if j < |results| {
      assert results[..j + 1][..j] == results[..j];
      JoinResultsFailurePersists(results, j + 1);
    } else {
      assert results[..j] == results;
    }
  }

  /**
   * A parent with a tag and a child list renders as `<tag>`, each child's HTML
   * in order, then `</tag>`, when every child renders; otherwise it raises the
   * first failing child's error.
   */
  lemma ParentRendersChildren(t: string, cs: seq<Node>, props: Option<Props>)
    ensures var r := Serialize(ParentNode(Some(t), ChildList(cs), props));
            (r.Success? <==> forall i | 0 <= i < |cs| :: Serialize(cs[i]).Success?)
            && (r.Success? ==>
                  r.value == "<" + t + ">" + Concat(Outputs(ChildResults(cs))) + "</" + t + ">")
            && (r.Failure? ==>
                  exists i | 0 <= i < |cs| ::
                    Serialize(cs[i]) == Failure(r.error)
                    && forall j | 0 <= j < i :: Serialize(cs[j]).Success?)
  {
    var rs := ChildResults(cs);
    assert rs == seq(|cs|, i requires 0 <= i < |cs| => Serialize(cs[i]));
    JoinResultsSpec(rs);
  }

  /** The tag check comes first: without a tag a parent raises "tag is required". */
  lemma ParentTagRequired(children: Children, props: Option<Props>)
    ensures Serialize(ParentNode(None, children, props)) == Failure(ValueError(TagRequired))
  {
  }

  /** A tagged parent without a child list raises "children is required". */
  lemma ParentChildrenRequired(t: string, props: Option<Props>)
    ensures Serialize(ParentNode(Some(t), AbsentChildren, props)) == Failure(ValueError(ChildrenRequired))
  {
  }

  /** An empty child list is not an error: the element is rendered empty. */
  lemma ParentEmptyChildren(t: string, props: Option<Props>)
    ensures Serialize(ParentNode(Some(t), ChildList([]), props)) == Success("<" + t + "></" + t + ">")
  {
    assert "<" + t + ">" + "" + CloseTag(t) == "<" + t + "></" + t + ">";
  }

  /** A parent's attributes never reach its HTML. */
  lemma ParentIgnoresProps(tag: Option<string>, children: Children, p1: Option<Props>, p2: Option<Props>)
    ensures Serialize(ParentNode(tag, children, p1)) == Serialize(ParentNode(tag, children, p2))
  {
    if tag.Some? && children.ChildList? {
      var cs := children.nodes;
      assert seq(|cs|, i requires 0 <= i < |cs| => Serialize(cs[i])) == ChildResults(cs);
    }
  }

  /** A tagged parent with a child list renders as its children's joined results, wrapped. */
  lemma SerializeParent(t: string, cs: seq<Node>, props: Option<Props>)
    ensures Serialize(ParentNode(Some(t), ChildList(cs), props)) == Wrap(t, JoinResults(ChildResults(cs)))
  {
    assert seq(|cs|, i requires 0 <= i < |cs| => Serialize(cs[i])) == ChildResults(cs);
  }

  /** `to_html` of any node, dispatched on its class as Python does. */
  method ToHtml(n: Node) returns (r: Result<string, Error>)
    ensures r == Serialize(n)
    decreases n, 2
  {
    match n {
      case HtmlNode(_, _, _, _) =>
        r := BaseToHtml(n);
      case LeafNode(tag, value, props) =>
        r := LeafToHtml(tag, value, props);
      case ParentNode(_, _, _) =>
        r := ParentToHtml(n);
    }
  }

  /**
   * `ParentNode.to_html` as the source runs it: the tag check, the children
   * check, the opening tag, the loop over the children, the closing tag.
   */
  method ParentToHtml(n: Node) returns (r: Result<string, Error>)
    requires n.ParentNode?
    ensures r == Serialize(n)
    decreases n, 1
  {
    if n.tag.None? {
      return Failure(ValueError(TagRequired));
    }
    if n.children.AbsentChildren? {
      return Failure(ValueError(ChildrenRequired));
    }
    var t := n.tag.value;
    var cs := n.children.nodes;
    SerializeParent(t, cs, n.props);
    var html := "<" + t + ">";
    r := AppendChildren(n, cs, html);
    if r.Success? {
      r := Success(r.value + CloseTag(t));
    }
  }

  /**
   * The `for` loop of `ParentNode.to_html`: appends each child's HTML to `html`
   * in order and stops at the first error a child raises.
   */
  method AppendChildren(ghost parent: Node, cs: seq<Node>, html: string) returns (r: Result<string, Error>)
    requires parent.ParentNode? && parent.children == ChildList(cs)
    ensures JoinResults(ChildResults(cs)).Failure? ==> r == JoinResults(ChildResults(cs))
    ensures JoinResults(ChildResults(cs)).Success? ==> r == Success(html + JoinResults(ChildResults(cs)).value)
    decreases parent, 0
  {
    ghost var rs := ChildResults(cs);
    var acc := html;
    for i := 0 to |cs|
      invariant JoinResults(rs[..i]).Success?
      invariant acc == html + JoinResults(rs[..i]).value
    {
      var child := ToHtml(cs[i]);
      JoinResultsStep(rs, i);
      if child.Failure? {
        JoinResultsFailurePersists(rs, i + 1);
        return Failure(child.error);
      }
      acc := acc + child.value;
    }
    assert rs[..|cs|] == rs;
    r := Success(acc);
  }

  /** The four leaves of src/test_parentnode.py. */
  function TestLeaves(): seq<Node> {
    [LeafNode(Some("b"), "Bold text"), LeafNode(None, "Normal text"),
     LeafNode(Some("i"), "italic text"), LeafNode(None, "Normal text")]
  }

  /** Each test leaf renders on its own as the test expects. */
  lemma TestLeavesRender()
    ensures Outputs(ChildResults(TestLeaves()))
         == ["<b>Bold text</b>", "Normal text", "<i>italic text</i>", "Normal text"]
    ensures forall i | 0 <= i < 4 :: Serialize(TestLeaves()[i]).Success?
  {
    LeafAbsentPropsAsEmpty(Some("b"), "Bold text");
    LeafAbsentPropsAsEmpty(Some("i"), "italic text");
    assert "<" + "b" + ">" + "Bold text" + CloseTag("b") == "<b>Bold text</b>";
    assert "<" + "i" + ">" + "italic text" + CloseTag("i") == "<i>italic text</i>";
  }

  /** A tagged parent whose children all render is its children's HTML wrapped in its tag. */
  lemma ParentRendersAll(t: string, cs: seq<Node>, props: Option<Props>)
    requires forall i | 0 <= i < |cs| :: Serialize(cs[i]).Success?
    ensures Serialize(ParentNode(Some(t), ChildList(cs), props))
         == Success("<" + t + ">" + Concat(Outputs(ChildResults(cs))) + CloseTag(t))
  {
    JoinResultsSpec(ChildResults(cs));
    SerializeParent(t, cs, props);
  }

  /** Concatenation of four parts. */
  lemma Concat4(a: string, b: string, c: string, d: string)
    ensures Concat([a, b, c, d]) == a + b + c + d
  {
    var parts := [a, b, c, d];
    assert parts[1..] == [b, c, d] && parts[1..][1..] == [c, d] && parts[1..][1..][1..] == [d];
    assert parts[1..][1..][1..][1..] == [];
    assert Concat([d]) == d;
    assert Concat([c, d]) == c + d;
    assert Concat([b, c, d]) == b + (c + d);
    assert a + (b + (c + d)) == a + b + c + d;
  }

  /** The first case of src/test_parentnode.py: a paragraph of four leaves. */
  lemma ParentExample()
    ensures Serialize(ParentNode(Some("p"), ChildList(TestLeaves())))
         == Success("<p>" + "<b>Bold text</b>" + "Normal text" + "<i>italic text</i>" + "Normal text" + "</p>")
  {
    TestLeavesRender();
    ParentRendersAll("p", TestLeaves(), None);
    var a, b, c, d := "<b>Bold text</b>", "Normal text", "<i>italic text</i>", "Normal text";
    Concat4(a, b, c, d);
    assert "<" + "p" + ">" == "<p>" && CloseTag("p") == "</p>";
    assert "<p>" + (a + b + c + d) + "</p>" == "<p>" + a + b + c + d + "</p>";
  }

  /** The paragraph nested in the second case of src/test_parentnode.py. */
  lemma InnerParagraph()
    ensures Serialize(ParentNode(Some("p"), ChildList([LeafNode(Some("b"), "Bold text")])))
         == Success("<p>" + "<b>Bold text</b>" + "</p>")
  {
    var cs := [LeafNode(Some("b"), "Bold text")];
    TestLeavesRender();
    assert cs[0] == TestLeaves()[0];
    assert Outputs(ChildResults(cs)) == ["<b>Bold text</b>"];
    ParentRendersAll("p", cs, None);
    var b := "<b>Bold text</b>";
    assert Concat([b]) == b + Concat([]) == b;
    assert "<" + "p" + ">" == "<p>" && CloseTag("p") == "</p>";
  }

  /** The children of the second case of src/test_parentnode.py: three leaves and a nested paragraph. */
  function NestedChildren(): seq<Node> {
    TestLeaves()[..3] + [ParentNode(Some("p"), ChildList([LeafNode(Some("b"), "Bold text")]))]
  }

  /** Each child of the second case renders on its own as expected. */
  lemma NestedChildrenRender()
    ensures Outputs(ChildResults(NestedChildren()))
         == ["<b>Bold text</b>", "Normal text", "<i>italic text</i>", "<p>" + "<b>Bold text</b>" + "</p>"]
    ensures forall i | 0 <= i < 4 :: Serialize(NestedChildren()[i]).Success?
  {
    var cs := NestedChildren();
    TestLeavesRender();
    InnerParagraph();
    assert forall i | 0 <= i < 3 :: cs[i] == TestLeaves()[i];
  }

  /** The second case of src/test_parentnode.py: a nested parent's HTML is spliced in verbatim. */
  lemma NestedParentExample()
    ensures Serialize(ParentNode(Some("p"), ChildList(NestedChildren())))
         == Success("<p>" + "<b>Bold text</b>" + "Normal text" + "<i>italic text</i>"
                    + ("<p>" + "<b>Bold text</b>" + "</p>") + "</p>")
  {
    NestedChildrenRender();
    ParentRendersAll("p", NestedChildren(), None);
    var a, b, c, d := "<b>Bold text</b>", "Normal text", "<i>italic text</i>", "<p>" + "<b>Bold text</b>" + "</p>";
    Concat4(a, b, c, d);
    assert "<" + "p" + ">" == "<p>" && CloseTag("p") == "</p>";
    assert "<p>" + (a + b + c + d) + "</p>" == "<p>" + a + b + c + d + "</p>";
  }
}
