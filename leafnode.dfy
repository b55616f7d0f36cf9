/**
 * A leaf of the tree (src/leafnode.py): a possibly tagged element around a
 * literal value, with no children.
 */
module LeafNodes {
  import opened Wrappers
  import opened Formatting
  import opened HtmlNodes

  /** The message of the `ValueError` raised for an empty value. */
  const ValueMissing := "value should be provided"

  /** Python truthiness of an optional tag: neither `None` nor "". */
  predicate Truthy(tag: Option<string>) {
    tag.Some? && tag.value != ""
  }

  /** The opening tag `<t` + attributes + `>`. */
  function OpenTag(t: string, attributes: string): string {
    "<" + t + attributes + ">"
  }

  /** The closing tag `</t>`. */
  function CloseTag(t: string): string {
    "</" + t + ">"
  }

  /** A leaf is built with no children, and its value defaults to "". */
  lemma LeafHasNoChildren(tag: Option<string>, value: string, props: Option<Props>)
    ensures LeafNode(tag, value, props).Children() == AbsentChildren
    ensures LeafNode(tag, value, props).Value() == Some(value)
    ensures LeafNode().Value() == Some("") && LeafNode().tag == None && LeafNode().props == None
  {
  }

  /**
   * `to_html` exactly as leafnode.py:19 writes it: the f-string interpolates the
   * result of `props_to_html()`, which is `None` when there is no attribute map.
   */
  function LeafToHtmlAsWritten(tag: Option<string>, value: string, props: Option<Props>): (r: Result<string, Error>)
    ensures r.Failure? <==> value == ""
    ensures value != "" && Truthy(tag) && props.None? ==>
              r == Success(OpenTag(tag.value, "None") + value + CloseTag(tag.value))
  {
    if value == "" then Failure(ValueError(ValueMissing))
    else if !Truthy(tag) then Success(value)
    else Success(OpenTag(tag.value, Format(PropsToHtml(props))) + value + CloseTag(tag.value))
  }

  /** As written, the first case of src/test_leafnode.py renders `<pNone>` instead of `<p>`. */
  lemma AsWrittenRendersNone()
    ensures LeafToHtmlAsWritten(Some("p"), "This is a paragraph of text.", None)
         == Success("<pNone>This is a paragraph of text.</p>")
    ensures LeafToHtmlAsWritten(Some("p"), "This is a paragraph of text.", None)
         != Success("<p>This is a paragraph of text.</p>")
  {
    var bad := "<pNone>This is a paragraph of text.</p>";
    assert OpenTag("p", "None") + "This is a paragraph of text." + CloseTag("p") == bad;
    assert bad[2] == 'N' != "<p>This is a paragraph of text.</p>"[2];
  }

  /**
   * Leaf `to_html`, with an absent attribute map rendered as no attributes, as
   * the tests expect: an empty value raises; an untagged (or ""-tagged) leaf is
   * its raw value; otherwise the value wrapped in the tag with its attributes.
   */
  function LeafToHtml(tag: Option<string>, value: string, props: Option<Props>): (r: Result<string, Error>)
    ensures r.Failure? <==> value == ""
    ensures r.Failure? ==> r.error == ValueError(ValueMissing)
    ensures value != "" && !Truthy(tag) ==> r == Success(value)
    ensures value != "" && Truthy(tag) ==>
              r == Success(OpenTag(tag.value, Attributes(props.GetOr([]))) + value + CloseTag(tag.value))
  {
    if value == "" then Failure(ValueError(ValueMissing))
    else if !Truthy(tag) then Success(value)
    else Success(OpenTag(tag.value, PropsToHtml(props).GetOr("")) + value + CloseTag(tag.value))
  }

  /** Where the source renders a string, the corrected leaf agrees with it. */
  lemma LeafToHtmlAgreesWhenPropsPresent(tag: Option<string>, value: string, props: Option<Props>)
    requires props.Some? || !Truthy(tag)
    ensures LeafToHtml(tag, value, props) == LeafToHtmlAsWritten(tag, value, props)
  {
  }

  /** An absent attribute map renders exactly like an empty one. */
  lemma LeafAbsentPropsAsEmpty(tag: Option<string>, value: string)
    ensures LeafToHtml(tag, value, None) == LeafToHtml(tag, value, Some([]))
    ensures value != "" && Truthy(tag) ==>
              LeafToHtml(tag, value, None) == Success("<" + tag.value + ">" + value + CloseTag(tag.value))
  {
    if value != "" && Truthy(tag) {
      assert OpenTag(tag.value, "") == "<" + tag.value + ">";
    }
  }

  /**
   * A tagged leaf's output opens with `<tag`, closes with `</tag>`, and holds its
   * value just before the closing tag.
   */
  lemma LeafTaggedShape(t: string, value: string, props: Option<Props>)
    requires t != "" && value != ""
    ensures var r := LeafToHtml(Some(t), value, props);
            var close := CloseTag(t);
            r.Success? && |r.value| >= |t| + 1 + |value| + |close|
            && r.value[..|t| + 1] == "<" + t
            && r.value[|r.value| - |close|..] == close
            && r.value[|r.value| - |close| - |value|..|r.value| - |close|] == value
  {
    var open := OpenTag(t, Attributes(props.GetOr([])));
    var close := CloseTag(t);
    var s := open + value + close;
    assert open == ("<" + t) + (Attributes(props.GetOr([])) + ">");
    assert s[..|t| + 1] == open[..|t| + 1] == "<" + t;
    assert s[|s| - |close|..] == close;
    assert s[|s| - |close| - |value|..|s| - |close|] == value;
  }

  /** The first case of src/test_leafnode.py: a tagged leaf without attributes. */
  lemma LeafToHtmlParagraphExample()
    ensures LeafToHtml(Some("p"), "This is a paragraph of text.", None)
         == Success("<p>This is a paragraph of text.</p>")
  {
    LeafAbsentPropsAsEmpty(Some("p"), "This is a paragraph of text.");
    assert "<" + "p" + ">" == "<p>";
    assert CloseTag("p") == "</p>";
    assert "<p>" + "This is a paragraph of text." + CloseTag("p")
        == "<p>This is a paragraph of text.</p>";
  }

  /** The attribute map of the second case of src/test_leafnode.py. */
  lemma HrefAttributes()
    ensures Attributes([("href", "https://www.google.com")]) == " href=\"https://www.google.com\""
  {
    var href := [("href", "https://www.google.com")];
    assert href[1..] == [];
    assert Attribute(href[0]) == " href=\"https://www.google.com\"";
  }

  /** The expected output of the second case of src/test_leafnode.py, assembled from its tags. */
  lemma LinkPieces()
    ensures OpenTag("a", " href=\"https://www.google.com\"") + "Click me!" + CloseTag("a")
         == "<a href=\"https://www.google.com\">Click me!</a>"
  {
    assert OpenTag("a", " href=\"https://www.google.com\"") == "<a href=\"https://www.google.com\">";
    assert CloseTag("a") == "</a>";
  }

  /** The second case of src/test_leafnode.py: a link with one attribute. */
  lemma LeafToHtmlLinkExample()
    ensures LeafToHtml(Some("a"), "Click me!", Some([("href", "https://www.google.com")]))
         == Success("<a href=\"https://www.google.com\">Click me!</a>")
  {
    HrefAttributes();
    LinkPieces();
  }

  /** The untagged and the empty-value cases of src/test_leafnode.py. */
  lemma LeafToHtmlUntaggedExamples()
    ensures LeafToHtml(Some("p"), "", None).Failure?
    ensures LeafToHtml(None, "just text", None) == Success("just text")
  {
  }
}
