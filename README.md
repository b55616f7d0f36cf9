# HTML node layer of a static site generator

A model of the node layer of a small Markdown-to-HTML static site generator. It covers:

- the `HTMLNode` base class and its attribute serialiser `props_to_html`;
- the `LeafNode`, which renders a literal value, optionally inside a tag;
- the `ParentNode`, which renders its children inside a tag;
- the `TextNode` value type for inline spans.

The model has six modules, one per source file plus two of shared helpers (both in wrappers.dfy):

- `Wrappers` (wrappers.dfy) holds `Option` and `Result`. `Formatting` holds how an f-string renders an optional string (`None` for absence).
- `HtmlNodes` (htmlnode.dfy, src/htmlnode.py) has the `Node` datatype with its three classes as constructors. `HtmlNode` is the base, with four fields that default to `None`. `LeafNode` has a string value that defaults to `""`. `ParentNode` has no value. The module also holds the base `to_html`, which always raises, and `props_to_html`, modelled literally: a `reduce` seeded with `" "` that appends `k="v" ` for each entry, then Python's `rstrip()`. It is proved equal to a reference rendering, `Attributes`, which gives ` k1="v1" k2="v2"` in insertion order. A dict is a sequence of (name, value) pairs, and `None` stands for "not a dict".
- `LeafNodes` (leafnode.dfy, src/leafnode.py) has the leaf's `to_html`: as the code is written, and corrected (see Findings).
- `ParentNodes` (parentnode.dfy, src/parentnode.py) has `Serialize`, the recursive `to_html` of any node. It also has the imperative `to_html` in three methods, each proved equal to `Serialize`. `ToHtml` dispatches on the node's class. `ParentToHtml` does the tag and children checks and writes the opening and closing tags. `AppendChildren` is the `for` loop: it appends each child's HTML in order and stops at the first exception.
- `TextNodes` (textnode.dfy, src/textnode.py) has the three-field record, its field-wise `__eq__` and its `__repr__`.

Exceptions are `Failure` values. `ValueError` carries the source's messages: "value should be provided", "tag is required" and "children is required".

Two behaviours follow the code where a reader might expect otherwise (the one place the model departs from the code is under ## Findings):

- A parent with an empty child list renders as `<tag></tag>` and does not raise. Only `children is None` is rejected (src/parentnode.py:16).
- A text span's type is whatever string the caller passes; the source defines no fixed set of kinds.

## Model

| member | source | states |
|---|---|---|
| HtmlNodes.ConstructorStoresFields | src/htmlnode.py:5-9 | the base constructor stores tag, value, children and props unchanged, and each defaults to absent |
| HtmlNodes.BaseToHtml | src/htmlnode.py:11-12 | the base `to_html` raises `NotImplementedError`, for every node |
| HtmlNodes.IsSpace | src/htmlnode.py:20 | the characters Python's `str.isspace` accepts, which `rstrip()` removes |
| HtmlNodes.RStrip | src/htmlnode.py:20 | `rstrip()` returns a prefix of its input with no trailing whitespace, and only whitespace is removed |
| HtmlNodes.PropsToHtml | src/htmlnode.py:14-21 | absent exactly when there is no attribute map; otherwise the reference rendering of the entries, ` k="v"` each, in insertion order |
| HtmlNodes.Entry | src/htmlnode.py:17 | the lambda of the `reduce`: one item as `k="v"` followed by a space |
| HtmlNodes.Fold | src/htmlnode.py:16-19 | the `reduce` over the items, a left fold of `Entry` from the seed |
| HtmlNodes.FoldAppends | src/htmlnode.py:16-19 | the `reduce` only appends to its seed |
| HtmlNodes.FoldRendersAttributes | src/htmlnode.py:16-19 | seeded with one space, the fold yields the reference rendering followed by exactly one space |
| HtmlNodes.RStripOneSpace | src/htmlnode.py:20 | `rstrip()` removes just that trailing space, because the rendering before it is empty or ends in a quote |
| HtmlNodes.AttributesEndInQuote | src/htmlnode.py:16-20 | the rendering is empty exactly for an empty map; otherwise it starts with a space and ends with `"` |
| HtmlNodes.AttributesSnoc | src/htmlnode.py:16-20 | appending an entry to the map appends its ` k="v"` to the rendering |
| HtmlNodes.PropsToHtmlAbsentAndEmpty | src/htmlnode.py:15-21 | no map gives `None`; an empty map gives `""`, which is present and differs from `None` |
| HtmlNodes.PropsToHtmlAppend | src/htmlnode.py:16-20 | output for `props + [(k, v)]` = output for `props` + ` k="v"`; the output never ends in whitespace |
| HtmlNodes.PropsToHtmlExample | src/test_htmlnode.py:8-12 | the two-entry map of the test renders as ` href="https://www.google.com" target="_blank"` |
| Formatting.Format | src/leafnode.py:19 | how an f-string renders an optional string: the string itself, or `None` when absent |
| LeafNodes.Truthy | src/leafnode.py:17 | `not self.tag` is false exactly for a tag that is present and not `""` |
| LeafNodes.LeafHasNoChildren | src/leafnode.py:6-12 | a leaf has no children, stores its value, and defaults to no tag, value `""` and no props |
| LeafNodes.LeafToHtmlAsWritten | src/leafnode.py:14-19 | as written: an empty value raises; a tagged leaf without attributes renders `<tagNone>value</tag>` |
| LeafNodes.AsWrittenRendersNone | src/leafnode.py:19 | as written, the test's `LeafNode("p", …)` renders `<pNone>…</p>`, not the expected `<p>…</p>` |
| LeafNodes.LeafToHtml | src/leafnode.py:14-19 | raises "value should be provided" exactly when the value is `""`, tag or no tag; with a falsy tag, returns the raw value; otherwise returns `<tag` + attributes + `>value</tag>` |
| LeafNodes.LeafToHtmlAgreesWhenPropsPresent | src/leafnode.py:17-19 | the corrected leaf equals the code as written whenever there is an attribute map or no truthy tag |
| LeafNodes.LeafAbsentPropsAsEmpty | src/test_leafnode.py:7-8 | absent attributes render like an empty map: `<tag>value</tag>` |
| LeafNodes.LeafTaggedShape | src/leafnode.py:19 | a tagged leaf's output starts with `<tag`, ends with `</tag>`, and has the value just before the closing tag |
| LeafNodes.LeafToHtmlParagraphExample | src/test_leafnode.py:7-8 | `LeafNode("p", "This is a paragraph of text.")` renders `<p>This is a paragraph of text.</p>` |
| LeafNodes.LeafToHtmlLinkExample | src/test_leafnode.py:9-10 | the link leaf renders `<a href="https://www.google.com">Click me!</a>` |
| LeafNodes.LeafToHtmlUntaggedExamples | src/test_leafnode.py:12-18 | a leaf with no value raises; an untagged leaf renders its raw text |
| ParentNodes.ParentHasNoValue | src/parentnode.py:5-11 | a parent's value is forced to `None`, its children are stored, and props default to absent |
| ParentNodes.Serialize | src/parentnode.py:13-22 | `to_html` of any node, dispatched on its class: the base raises, a leaf renders itself, a parent checks its tag, then its children, then wraps their joined HTML in its tag |
| ParentNodes.JoinResults | src/parentnode.py:19-20 | the loop over the children's results: the first error stops it, otherwise their HTML is appended in order |
| ParentNodes.ConcatSnoc | src/parentnode.py:19-20 | appending one more child's HTML extends the concatenation at its end |
| ParentNodes.JoinResultsSpec | src/parentnode.py:19-20 | the loop over child results succeeds iff every child does, and then yields their HTML concatenated in order; otherwise it yields the first failing child's error |
| ParentNodes.JoinResultsStep | src/parentnode.py:19-20 | one more loop iteration either stops with the next child's error or appends its HTML |
| ParentNodes.JoinResultsFailurePersists | src/parentnode.py:19-20 | once a prefix of the children fails, the whole loop fails with that error |
| ParentNodes.SerializeParent | src/parentnode.py:18-22 | a tagged parent with a child list renders as its children's joined results inside `<tag>`…`</tag>` |
| ParentNodes.ParentRendersChildren | src/parentnode.py:13-22 | a tagged parent with a child list succeeds iff every child does; its output is `<tag>` + each child's HTML in order + `</tag>`; on failure it raises the first failing child's error |
| ParentNodes.ParentRendersAll | src/parentnode.py:18-22 | when every child renders, the parent's output is its children's HTML wrapped in its tag |
| ParentNodes.ParentTagRequired | src/parentnode.py:14-15 | without a tag a parent raises "tag is required", whatever its children, so the tag check comes first |
| ParentNodes.ParentChildrenRequired | src/parentnode.py:16-17 | a tagged parent without a child list raises "children is required" |
| ParentNodes.ParentEmptyChildren | src/parentnode.py:16-21 | an empty child list is not an error and renders `<tag></tag>` |
| ParentNodes.ParentIgnoresProps | src/parentnode.py:18-21 | a parent's attributes never affect its HTML |
| ParentNodes.ToHtml | src/parentnode.py:19-20 | `to_html` dispatched on the node's class returns exactly `Serialize` of the node |
| ParentNodes.ParentToHtml | src/parentnode.py:13-22 | the checks, opening tag, loop and closing tag of `ParentNode.to_html` return exactly `Serialize` of the node |
| ParentNodes.AppendChildren | src/parentnode.py:19-20 | the `for` loop appends the children's HTML to the opening tag in order, or returns the first error a child raises |
| ParentNodes.TestLeavesRender | src/test_parentnode.py:13-16 | each of the test's four leaves renders on its own as expected |
| ParentNodes.ParentExample | src/test_parentnode.py:9-22 | the test's paragraph renders `<p><b>Bold text</b>Normal text<i>italic text</i>Normal text</p>` |
| ParentNodes.InnerParagraph | src/test_parentnode.py:29-31 | the nested paragraph renders `<p><b>Bold text</b></p>` |
| ParentNodes.NestedChildrenRender | src/test_parentnode.py:25-32 | each child of the nested case, the inner paragraph included, renders on its own as expected |
| ParentNodes.NestedParentExample | src/test_parentnode.py:23-37 | a nested parent's HTML is spliced in verbatim: `<p><b>Bold text</b>Normal text<i>italic text</i><p><b>Bold text</b></p></p>` |
| TextNodes.Equal | src/textnode.py:7-12 | `__eq__`: text, type and URL all equal |
| TextNodes.Repr | src/textnode.py:14-15 | `__repr__`: `TextNode(` text `, ` type `, ` url `)` |
| TextNodes.EqualIffSameFields | src/textnode.py:7-12 | `__eq__` holds iff text, type and URL are all equal |
| TextNodes.EqualIsEquivalence | src/textnode.py:7-12 | `__eq__` is reflexive, symmetric and transitive |
| TextNodes.ChangingAFieldBreaksEquality | src/test_textnode.py:17-29 | changing any one of text, type or URL makes the spans unequal |
| TextNodes.UrlDefaultsToNone | src/textnode.py:2-5 | without a URL argument the URL is `None` |
| TextNodes.EqualExamples | src/test_textnode.py:8-29 | the equal and unequal pairs of the tests |
| TextNodes.ReprLayout | src/textnode.py:14-15 | the repr is `TextNode(` text `, ` type `, ` url `)`, with an absent URL written `None` |

## Left out

- The inline splitter (the delimiter, link and image passes), the span-to-HTML mapping and the pattern extraction helpers are not part of this model. Their source files are not part of this model either.
- The `unittest` harness: its cases are stated as lemmas, not modelled as code.
- Duck typing of `children`: a child is any `Node` of the closed datatype, not any object with a `to_html` method.
- Values that are not strings: tag, value, attribute names and values, text and type are strings. A `LeafNode` built with `value=None` is not modelled. Of Python's rendering of non-strings, only `None` in an f-string is modelled.
- `isinstance(props, dict)`: any non-dict value is modelled as the absent map `None`.
- Dict key uniqueness: the attribute map is a sequence of pairs. Serialisation does not depend on the keys being distinct.
- `TextNode.__eq__` against an object without the three fields (an `AttributeError` in Python) is not modelled.
- src/parentnode.py:1 imports `ChildrenType`, which src/htmlnode.py does not define. The model assumes the import resolves and models `ParentNode.to_html` as written.
- Python's recursion limit and cyclic child lists: a parent whose children contain itself, or a tree nested deeper than the interpreter's recursion limit, raises `RecursionError` in `to_html`. `Node` is a well-founded datatype that cannot express a cycle, and `Serialize` always terminates.
- The exception classes themselves are not modelled: `NotImplementedError` and `ValueError(message)` are variants of an error datatype.

## Findings

| source | as written | input that shows it | evidently intended | confidence | as-written member | corrected member |
|---|---|---|---|---|---|---|
| src/leafnode.py:19 | the f-string interpolates `props_to_html()`, which returns `None` when the leaf has no attribute map, so the opening tag reads `<pNone>` | `LeafNode("p", "This is a paragraph of text.")` renders `<pNone>This is a paragraph of text.</p>` (LeafNodes.AsWrittenRendersNone) | `<p>This is a paragraph of text.</p>`, as src/test_leafnode.py:7-8 expects: absent attributes render as nothing | high; not executed | LeafNodes.LeafToHtmlAsWritten | LeafNodes.LeafToHtml |

The rest of the model (`ParentNodes.Serialize` and the methods) uses the corrected `LeafNodes.LeafToHtml`. `HtmlNodes.PropsToHtml` itself still returns `None` for an absent map, as the code does. The same defect also breaks src/test_parentnode.py:9-22 as written: its tagged leaves have no attribute map, so the first one renders `<bNone>Bold text</b>`. `ParentNodes.ParentExample` and `ParentNodes.NestedParentExample` prove the tests' expected strings for the corrected leaf.
