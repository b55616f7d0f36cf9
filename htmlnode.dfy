/**
 * The HTML node every element of the page tree is built from (src/htmlnode.py):
 * its four fields and their defaults, the attribute serialiser `props_to_html`
 * and the base `to_html`, which no plain node implements.
 */
module HtmlNodes {
  import opened Wrappers

  /** An attribute map in insertion order: Python's dict as its sequence of items. */
  type Props = seq<(string, string)>

  /** The exceptions serialisation raises; `message` is the text a `ValueError` carries. */
  datatype Error = NotImplementedError | ValueError(message: string)

  /**
   * The `children` field: `None`, or a list of nodes. (A type of its own rather
   * than an `Option`, so that a child is known to be smaller than its parent.)
   */
  datatype Children = AbsentChildren | ChildList(nodes: seq<Node>)

  /**
   * A node of the tree. `HtmlNode` is the base class, whose constructor takes all
   * four fields, each defaulting to `None`; `LeafNode` and `ParentNode` are its two
   * subclasses with the constructor arguments they accept. A leaf's value is a
   * string defaulting to "", and a parent's value is always `None`.
   */
  datatype Node =
    | HtmlNode(tag: Option<string> := None, value: Option<string> := None,
               children: Children := AbsentChildren, props: Option<Props> := None)
    | LeafNode(tag: Option<string> := None, leafValue: string := "", props: Option<Props> := None)
    | ParentNode(tag: Option<string>, children: Children, props: Option<Props> := None)
  {
    /** The `value` field as HTMLNode stores it. */
    function Value(): Option<string> {
      match this
      case HtmlNode(_, value, _, _) => value
      case LeafNode(_, value, _) => Some(value)
      case ParentNode(_, _, _) => None
    }

    /** The `children` field as HTMLNode stores it. */
    function Children(): Children {
      match this
      case HtmlNode(_, _, children, _) => children
      case LeafNode(_, _, _) => AbsentChildren
      case ParentNode(_, children, _) => children
    }
  }

  /** The base constructor stores its four arguments unchanged, each defaulting to absent. */
  lemma ConstructorStoresFields(tag: Option<string>, value: Option<string>,
                                children: Children, props: Option<Props>)
    ensures HtmlNode().tag == None && HtmlNode().Value() == None
    ensures HtmlNode().Children() == AbsentChildren && HtmlNode().props == None
    ensures var n := HtmlNode(tag, value, children, props);
            n.tag == tag && n.Value() == value && n.Children() == children && n.props == props
  {
  }

  /** The base `to_html` raises `NotImplementedError`, whatever the node. */
  function BaseToHtml(n: Node): (r: Result<string, Error>)
    ensures r.Failure? && r.error.NotImplementedError?
  {
    Failure(NotImplementedError)
  }

  /** Python's `str.isspace` for one character: the characters `rstrip()` removes. */
  predicate IsSpace(c: char) {
    c in {'\U{0020}', '\U{0009}', '\U{000A}', '\U{000D}', '\U{000B}', '\U{000C}', '\U{001C}', '\U{001D}',
          '\U{001E}', '\U{001F}', '\U{0085}', '\U{00A0}', '\U{1680}', '\U{2000}', '\U{2001}', '\U{2002}',
          '\U{2003}', '\U{2004}', '\U{2005}', '\U{2006}', '\U{2007}', '\U{2008}', '\U{2009}', '\U{200A}',
          '\U{2028}', '\U{2029}', '\U{202F}', '\U{205F}', '\U{3000}'}
  }

  /** Python's `str.rstrip()` with no argument: drops the trailing whitespace. */
  function RStrip(s: string): (r: string)
    ensures r <= s
    ensures r == [] || !IsSpace(r[|r| - 1])
    ensures forall i | |r| <= i < |s| :: IsSpace(s[i])
  {
    if |s| > 0 && IsSpace(s[|s| - 1]) then RStrip(s[..|s| - 1]) else s
  }

  /** The step of the `reduce`: one item appended as `k="v"` followed by a space. */
  function Entry(item: (string, string)): string {
    item.0 + "=\"" + item.1 + "\" "
  }

  /** `reduce(step, items, acc)`: a left fold of `Entry` over the items. */
  function Fold(acc: string, items: Props): string
    decreases |items|
  {
    if items == [] then acc else Fold(acc + Entry(items[0]), items[1..])
  }

  /** One rendered attribute: a space, the name, `=` and the value in double quotes. */
  function Attribute(item: (string, string)): string {
    " " + item.0 + "=\"" + item.1 + "\""
  }

  /** Reference rendering of an attribute map: its attributes in insertion order. */
  function Attributes(items: Props): string
    decreases |items|
  {
    if items == [] then "" else Attribute(items[0]) + Attributes(items[1..])
  }

  /**
   * `props_to_html`: `None` when the node has no attribute map, otherwise every
   * entry as ` k="v"` in insertion order.
   */
  function PropsToHtml(props: Option<Props>): (r: Option<string>)
    ensures r.None? <==> props.None?
    ensures props.Some? ==> r == Some(Attributes(props.value))
  {
    match props
    case None => None
    case Some(items) =>
      FoldRendersAttributes(items);
      AttributesEndInQuote(items);
      RStripOneSpace(Attributes(items));
      Some(RStrip(Fold(" ", items)))
  }

  /** The fold appends the entries to the accumulator. */
  lemma {:induction false} FoldAppends(acc: string, items: Props)
    ensures Fold(acc, items) == acc + Fold("", items)
    decreases |items|
  {
    if items != [] {
      calc {
        Fold(acc, items);
        Fold(acc + Entry(items[0]), items[1..]);
        { FoldAppends(acc + Entry(items[0]), items[1..]); }
        acc + Entry(items[0]) + Fold("", items[1..]);
        { FoldAppends(Entry(items[0]), items[1..]); }
        acc + Fold(Entry(items[0]), items[1..]);
        { assert "" + Entry(items[0]) == Entry(items[0]); }
        acc + Fold("", items);
      }
    }
  }

  /** Seeded with one space, the fold is the reference rendering plus one trailing space. */
  lemma {:induction false} FoldRendersAttributes(items: Props)
    ensures Fold(" ", items) == Attributes(items) + " "
    decreases |items|
  {
    if items != [] {
      var e := items[0];
      calc {
        Fold(" ", items);
        Fold(" " + Entry(e), items[1..]);
        { FoldAppends(" " + Entry(e), items[1..]); }
        " " + Entry(e) + Fold("", items[1..]);
        { FoldAppends(" ", items[1..]); }
        Attribute(e) + Fold(" ", items[1..]);
        { FoldRendersAttributes(items[1..]); }
        Attribute(e) + (Attributes(items[1..]) + " ");
      }
    }
  }

  /** Stripping a string that ends in one space and no other whitespace drops just that space. */
  lemma RStripOneSpace(s: string)
    requires s == [] || s[|s| - 1] == '"'
    ensures RStrip(s + " ") == s
  {
    assert (s + " ")[..|s|] == s;
  }

  /** The rendering of a non-empty map starts with a space and ends with a closing quote. */
  lemma {:induction false} AttributesEndInQuote(items: Props)
    ensures Attributes(items) == "" <==> items == []
    ensures items != [] ==> Attributes(items)[0] == ' '
    ensures items != [] ==> Attributes(items)[|Attributes(items)| - 1] == '"'
    decreases |items|
  {
    if items != [] {
      AttributesEndInQuote(items[1..]);
    }
  }

  /** Rendering is compositional: appending an entry appends its attribute. */
  lemma {:induction false} AttributesSnoc(items: Props, item: (string, string))
    ensures Attributes(items + [item]) == Attributes(items) + Attribute(item)
    decreases |items|
  {
    if items == [] {
      assert [] + [item] == [item];
    } else {
      assert (items + [item])[1..] == items[1..] + [item];
      AttributesSnoc(items[1..], item);
    }
  }

  /** With no map the result is absent; an empty map yields "", which is present. */
  lemma PropsToHtmlAbsentAndEmpty()
    ensures PropsToHtml(None) == None
    ensures PropsToHtml(Some([])) == Some("")
    ensures PropsToHtml(Some([])) != PropsToHtml(None)
  {
  }

  /** The output for `props + [(k, v)]` is the output for `props` followed by ` k="v"`, and never ends in whitespace. */
  lemma PropsToHtmlAppend(items: Props, k: string, v: string)
    ensures PropsToHtml(Some(items + [(k, v)])).value
         == PropsToHtml(Some(items)).value + " " + k + "=\"" + v + "\""
    ensures var s := PropsToHtml(Some(items)).value; s == "" || !IsSpace(s[|s| - 1])
  {
    AttributesSnoc(items, (k, v));
    AttributesEndInQuote(items);
  }

  /** The attribute map of src/test_htmlnode.py renders as the test expects. */
  lemma PropsToHtmlExample()
    ensures PropsToHtml(Some([("href", "https://www.google.com"), ("target", "_blank")]))
         == Some(" href=\"https://www.google.com\" target=\"_blank\"")
  {
    var items := [("href", "https://www.google.com"), ("target", "_blank")];
    assert items[1..][1..] == [];
    assert Attributes(items[1..]) == " target=\"_blank\"";
    assert Attribute(items[0]) == " href=\"https://www.google.com\"";
    assert Attributes(items) == " href=\"https://www.google.com\"" + " target=\"_blank\"";
    assert " href=\"https://www.google.com\"" + " target=\"_blank\""
        == " href=\"https://www.google.com\" target=\"_blank\"";
    assert PropsToHtml(Some(items)) == Some(Attributes(items));
  }
}
