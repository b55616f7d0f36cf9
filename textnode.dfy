/** An inline text span (src/textnode.py): its text, its type and an optional URL. */
module TextNodes {
  import opened Wrappers
  import opened Formatting

  /** A text span; `url` defaults to `None`. The type is the plain string the caller passes. */
  datatype TextNode = TextNode(text: string, textType: string, url: Option<string> := None)

  /** `__eq__`: two spans are equal when text, type and URL all are. */
  predicate Equal(a: TextNode, b: TextNode) {
    a.text == b.text && a.textType == b.textType && a.url == b.url
  }

  /** `__eq__` is exactly value equality of the three fields. */
  lemma EqualIffSameFields(a: TextNode, b: TextNode)
    ensures Equal(a, b) <==> a == b
  {
  }

  /** `__eq__` is reflexive, symmetric and transitive. */
  lemma EqualIsEquivalence(a: TextNode, b: TextNode, c: TextNode)
    ensures Equal(a, a)
    ensures Equal(a, b) <==> Equal(b, a)
    ensures Equal(a, b) && Equal(b, c) ==> Equal(a, c)
  {
  }

  /** Changing any one field makes the spans unequal. */
  lemma ChangingAFieldBreaksEquality(a: TextNode, text: string, textType: string, url: Option<string>)
    ensures text != a.text ==> !Equal(a, a.(text := text))
    ensures textType != a.textType ==> !Equal(a, a.(textType := textType))
    ensures url != a.url ==> !Equal(a, a.(url := url))
  {
  }

  /** Without a URL argument, the URL is absent. */
  lemma UrlDefaultsToNone(text: string, textType: string)
    ensures TextNode(text, textType).url == None
    ensures Equal(TextNode(text, textType), TextNode(text, textType, None))
  {
  }

  /** The cases of src/test_textnode.py. */
  lemma EqualExamples()
    ensures Equal(TextNode("This is a text node", "bold"), TextNode("This is a text node", "bold"))
    ensures Equal(TextNode("This is a text node", "bold", Some("https://url.com")),
                  TextNode("This is a text node", "bold", Some("https://url.com")))
    ensures !Equal(TextNode("This is a text node", "bold"), TextNode("This is a text node 2", "bold"))
    ensures !Equal(TextNode("This is a text node", "bold"), TextNode("This is a text node", "italic"))
    ensures !Equal(TextNode("This is a text node", "bold", Some("https://url1.com")),
                   TextNode("This is a text node", "bold", Some("https://url2.com")))
  {
    assert |"This is a text node"| != |"This is a text node 2"|;
    assert "bold"[0] != "italic"[0];
    assert "https://url1.com"[11] != "https://url2.com"[11];
  }

  /** `__repr__`: `TextNode(text, type, url)`, an absent URL written as `None`. */
  function Repr(t: TextNode): string {
    "TextNode(" + t.text + ", " + t.textType + ", " + Format(t.url) + ")"
  }

  /** The repr wraps the three fields, in order and separated by ", ", in `TextNode(` and `)`. */
  lemma ReprLayout(t: TextNode)
    ensures var r := Repr(t);
            var u := if t.url.Some? then t.url.value else "None";
            var a := 9 + |t.text|;
            var b := a + 2 + |t.textType|;
            |r| == b + 2 + |u| + 1
            && r[..9] == "TextNode(" && r[9..a] == t.text
            && r[a..a + 2] == ", " && r[a + 2..b] == t.textType
            && r[b..b + 2] == ", " && r[b + 2..|r| - 1] == u && r[|r| - 1] == ')'
  {
    var u := Format(t.url);
    var p1 := "TextNode(" + t.text;
    var p2 := p1 + ", " + t.textType;
    var p3 := p2 + ", " + u;
    var r := p3 + ")";
    assert r == Repr(t);
    assert r[..|p3|] == p3 && p3[..|p2|] == p2 && p2[..|p1|] == p1;
    assert p1[..9] == "TextNode(" && p1[9..] == t.text;
    assert p2[|p1|..|p1| + 2] == ", " && p2[|p1| + 2..] == t.textType;
    assert p3[|p2|..|p2| + 2] == ", " && p3[|p2| + 2..] == u;
  }
}
