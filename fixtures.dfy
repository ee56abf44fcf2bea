/** The scenarios of src/__tests__/test_extractor.ts and a few edge cases,
    stated on hand-built parse trees. The page scenarios take their
    attribute values as parameters, so each covers every page of the same
    shape; the edge cases are stated for any tag, attributes and children. */
module Fixtures {
  import opened Dom
  import opened Estree
  import opened Utils
  import opened Selectors
  import opened HtmlWalk
  import opened JsxWalk
  import opened Components

  /** A whitespace or text node, as the markup parser keeps it. */
  const Blank: Node := Other([])

  lemma TagsOfThree(a: Node, b: Node, c: Node)
    ensures Tags([a, b, c])
         == (if a.Tag? then [a] else []) + (if b.Tag? then [b] else []) + (if c.Tag? then [c] else [])
  {
    assert [a, b, c][1..] == [b, c];
    assert [b, c][1..] == [c];
    assert [c][1..] == [];
    assert Tags([c]) == (if c.Tag? then [c] else []);
    assert Tags([b, c]) == (if b.Tag? then [b] else []) + Tags([c]);
  }

  lemma SelectorsOfThree(kind: SelectorKind, a: Element, b: Element, c: Element)
    ensures SelectorsOf(kind, [a, b, c]) == SelectorOf(kind, a) + SelectorOf(kind, b) + SelectorOf(kind, c)
  {
    assert [a, b, c][1..] == [b, c];
    assert [b, c][1..] == [c];
    assert [c][1..] == [];
    assert SelectorsOf(kind, [c]) == SelectorOf(kind, c);
    assert SelectorsOf(kind, [b, c]) == SelectorOf(kind, b) + SelectorOf(kind, c);
  }

  lemma ChildrenOfThree(a: Element, b: Element, c: Element)
    ensures ChildrenOf([a, b, c]) == a.children + b.children + c.children
  {
    assert [a, b, c][1..] == [b, c];
    assert [b, c][1..] == [c];
    assert [c][1..] == [];
    assert ChildrenOf([c]) == c.children;
    assert ChildrenOf([b, c]) == b.children + c.children;
  }

  /** The id page as markup, inside `html > body`: a header holding the site
      title, a main part with a classed article, and a footer holding a
      classed `small`, with text between the tags. */
  function IdPage(header: string, title: string, footer: string): seq<Node>
  {
    [Tag("html", map[], [Tag("body", map[], PageSections(header, title, footer))])]
  }

  /** Depth 2 of the page. */
  function PageSections(header: string, title: string, footer: string): seq<Node>
  {
    [Blank, HeaderTag(header, title)] + [Blank, MainTag()] + [Blank, FooterTag(footer)] + [Blank]
  }

  function HeaderTag(header: string, title: string): Element
  {
    Tag("header", map["id" := header], [Tag("h1", map["id" := title], [Blank])])
  }

  function MainTag(): Element
  {
    Tag("main", map[], [Tag("article", map["class" := "content"], [Blank])])
  }

  function FooterTag(footer: string): Element
  {
    Tag("footer", map["id" := footer], [Tag("small", map["class" := "copyright"], [Blank])])
  }

  /** Depth 3 of the page: the title, then two classed tags without ids. */
  lemma TitleLevel(header: string, title: string, footer: string)
    requires title != ""
    ensures HtmlSelectors(IdKind, ChildrenOf([HeaderTag(header, title), MainTag(), FooterTag(footer)])) == ["#" + title]
  {
    var hd, mn, ft := HeaderTag(header, title), MainTag(), FooterTag(footer);
    ChildrenOfThree(hd, mn, ft);
    var level3 := [hd.children[0], mn.children[0], ft.children[0]];
    assert ChildrenOf([hd, mn, ft]) == level3;
    TagsOfThree(Blank, Blank, Blank);
    ChildrenOfThree(level3[0], level3[1], level3[2]);
    assert ChildrenOf(level3) == [Blank, Blank, Blank];
    TagsOfThree(level3[0], level3[1], level3[2]);
    assert Tags(level3) == level3;
    SelectorsOfThree(IdKind, level3[0], level3[1], level3[2]);
    assert GetIds(level3) == ["#" + title];
    HtmlSelectorsUnfold(IdKind, level3);
  }

  /** Depth 2 of the page: the header and the footer, then depth 3. */
  lemma SectionsLevel(header: string, title: string, footer: string)
    requires header != "" && title != "" && footer != ""
    ensures HtmlSelectors(IdKind, PageSections(header, title, footer)) == ["#" + header, "#" + footer, "#" + title]
  {
    var hd, mn, ft := HeaderTag(header, title), MainTag(), FooterTag(footer);
    var level2 := PageSections(header, title, footer);
    assert Tags(level2) == [hd, mn, ft] by {
      TagsConcat([Blank, hd] + [Blank, mn] + [Blank, ft], [Blank]);
      TagsConcat([Blank, hd] + [Blank, mn], [Blank, ft]);
      TagsConcat([Blank, hd], [Blank, mn]);
    }
    SelectorsOfThree(IdKind, hd, mn, ft);
    assert GetIds([hd, mn, ft]) == ["#" + header, "#" + footer];
    TitleLevel(header, title, footer);
    HtmlSelectorsUnfold(IdKind, level2);
  }

  /** Markup mode walks level by level: the header and footer ids (depth 2)
      come before the title id (depth 3). */
  lemma HtmlIdsInLevelOrder(header: string, title: string, footer: string)
    requires header != "" && title != "" && footer != ""
    ensures HtmlSelectors(IdKind, IdPage(header, title, footer)) == ["#" + header, "#" + footer, "#" + title]
  {
    var level2 := PageSections(header, title, footer);
    var body: Element := Tag("body", map[], level2);
    var html: Element := Tag("html", map[], [body]);
    SectionsLevel(header, title, footer);
    assert Tags([body]) == [body] && ChildrenOf([body]) == level2 && GetIds([body]) == [];
    HtmlSelectorsUnfold(IdKind, [body]);
    assert Tags([html]) == [html] && ChildrenOf([html]) == [body] && GetIds([html]) == [];
    HtmlSelectorsUnfold(IdKind, [html]);
  }

  /** A JSX text child. */
  const Text: Expression := OtherExpression("JSXText")

  /** `<header id=...><h1 id=...>...</h1></header>` */
  function HeaderJsx(header: string, title: string): Expression
  {
    JSXElement([JsxAttribute("id", header)], [Text, JSXElement([JsxAttribute("id", title)], [Text]), Text])
  }

  /** `<main><article class="content">...</article></main>` */
  function MainJsx(): Expression
  {
    JSXElement([], [Text, JSXElement([JsxAttribute("class", "content")], [Text]), Text])
  }

  /** `<footer id=...><small class="copyright">...</small></footer>` */
  function FooterJsx(footer: string): Expression
  {
    JSXElement([JsxAttribute("id", footer)], [Text, JSXElement([JsxAttribute("class", "copyright")], [Text]), Text])
  }

  /** The element the id component returns: the same page as JSX. */
  function IdComponent(header: string, title: string, footer: string): Expression
  {
    JSXElement([], [Text, HeaderJsx(header, title), Text] + [MainJsx(), Text, FooterJsx(footer)] + [Text])
  }

  /** `export function IdTestCase() { return (<div>...</div>); }` */
  function IdModule(header: string, title: string, footer: string): Program
  {
    Program([ExportNamedDeclaration(Some(FunctionDeclaration([ReturnStatement(Some(IdComponent(header, title, footer)))])))])
  }

  /** For either selector kind, the selectors of three sibling children are
      those of the first child, then the second's, then the third's. */
  lemma JsxSelectorsOfThree(kind: SelectorKind, a: Expression, b: Expression, c: Expression)
    ensures JsxSelectors(kind, [a, b, c]) == JsxSelectors(kind, [a]) + JsxSelectors(kind, [b]) + JsxSelectors(kind, [c])
  {
    assert [a, b, c] == [a] + [b] + [c];
    JsxSelectorsConcat(kind, [a] + [b], [c]);
    JsxSelectorsConcat(kind, [a], [b]);
  }

  /** Text children add nothing. */
  lemma TextAddsNothing()
    ensures JsxSelectors(IdKind, [Text]) == []
  {
    assert [Text][1..] == [];
  }

  /** The header gives its own id, then the title's. */
  lemma HeaderIds(header: string, title: string)
    ensures JsxSelectors(IdKind, [HeaderJsx(header, title)]) == ["#" + header, "#" + title]
  {
    var hd := HeaderJsx(header, title);
    TextAddsNothing();
    JsxSelectorsOfThree(IdKind, Text, hd.children[1], Text);
    JsxSelectorsPreOrder(IdKind, [], hd.children[1], []);
    JsxSelectorsPreOrder(IdKind, [], hd, []);
  }

  /** The main section has no ids. */
  lemma MainIds()
    ensures JsxSelectors(IdKind, [MainJsx()]) == []
  {
    var mn := MainJsx();
    TextAddsNothing();
    JsxSelectorsOfThree(IdKind, Text, mn.children[1], Text);
    JsxSelectorsPreOrder(IdKind, [], mn.children[1], []);
    JsxSelectorsPreOrder(IdKind, [], mn, []);
  }

  /** The footer gives its own id only. */
  lemma FooterIds(footer: string)
    ensures JsxSelectors(IdKind, [FooterJsx(footer)]) == ["#" + footer]
  {
    var ft := FooterJsx(footer);
    TextAddsNothing();
    JsxSelectorsOfThree(IdKind, Text, ft.children[1], Text);
    JsxSelectorsPreOrder(IdKind, [], ft.children[1], []);
    JsxSelectorsPreOrder(IdKind, [], ft, []);
  }

  /** The module's only root is the element its exported function returns. */
  lemma IdModuleRoots(header: string, title: string, footer: string)
    ensures JsxRoots(IdModule(header, title, footer).body) == [IdComponent(header, title, footer)]
  {
    var root := IdComponent(header, title, footer);
    var body := IdModule(header, title, footer).body;
    assert ReturnedJsx(body[0].declaration.value.body) == [root];
    assert JsxRoots(body[1..]) == [];
  }

  /** The root's children, left to right: header, main, footer. */
  lemma IdComponentIds(header: string, title: string, footer: string)
    ensures JsxSelectors(IdKind, [IdComponent(header, title, footer)]) == ["#" + header, "#" + title] + ["#" + footer]
  {
    var root := IdComponent(header, title, footer);
    var hd, mn, ft := HeaderJsx(header, title), MainJsx(), FooterJsx(footer);
    HeaderIds(header, title);
    MainIds();
    FooterIds(footer);
    TextAddsNothing();
    JsxSelectorsConcat(IdKind, [Text, hd, Text] + [mn, Text, ft], [Text]);
    JsxSelectorsConcat(IdKind, [Text, hd, Text], [mn, Text, ft]);
    JsxSelectorsOfThree(IdKind, Text, hd, Text);
    JsxSelectorsOfThree(IdKind, mn, Text, ft);
    JsxSelectorsSingle(IdKind, root);
  }

  /** Component mode walks in pre-order: the title inside the header comes
      before the footer. */
  lemma JsxIdsInPreOrder(header: string, title: string, footer: string)
    ensures JsxRoots(IdModule(header, title, footer).body) == [IdComponent(header, title, footer)]
    ensures JsxSelectors(IdKind, JsxRoots(IdModule(header, title, footer).body))
         == ["#" + header, "#" + title, "#" + footer]
  {
    IdModuleRoots(header, title, footer);
    IdComponentIds(header, title, footer);
  }

  /** Several space-separated classes on one element make one selector, whose
      dots stand where the spaces were. */
  lemma MultipleClassesMakeOneSelector(name: string, words: seq<string>, children: seq<Node>)
    requires Join(words, ' ') != ""
    requires forall w :: w in words ==> ' ' !in w
    ensures GetClassNames([Tag(name, map["class" := Join(words, ' ')], children)]) == ["." + Join(words, '.')]
  {
    ReplaceSpacesJoin(words);
    var e: Element := Tag(name, map["class" := Join(words, ' ')], children);
    assert [e][1..] == [];
  }

  /** Ids are passed through as written, spaces and all, under any tag and
      children: a non-empty id gives `#` and the raw value in markup mode, an
      empty one gives nothing; in component mode every id value gives `#` and
      the raw value. */
  lemma IdKeepsSpaces(name: string, v: string, children: seq<Node>)
    ensures v != "" ==> GetIds([Tag(name, map["id" := v], children)]) == ["#" + v]
    ensures v == "" ==> GetIds([Tag(name, map["id" := v], children)]) == []
    ensures AttributeSelectors(IdKind, [JsxAttribute("id", v)]) == ["#" + v]
  {
    var e: Element := Tag(name, map["id" := v], children);
    assert [e][1..] == [];
    assert [JsxAttribute("id", v)][1..] == [];
  }

  /** An empty class attribute is dropped in markup mode but kept in component mode. */
  lemma EmptyClassValue(name: string, attribs: map<string, string>, children: seq<Node>, attrName: string)
    requires "class" in attribs && attribs["class"] == ""
    requires attrName == "class" || attrName == "className"
    ensures GetClassNames([Tag(name, attribs, children)]) == []
    ensures AttributeSelectors(ClassKind, [JsxAttribute(attrName, "")]) == ["."]
  {
    var e: Element := Tag(name, attribs, children);
    assert [e][1..] == [];
    assert [JsxAttribute(attrName, "")][1..] == [];
    assert IsClassName(JsxAttribute(attrName, ""));
    assert ReplaceSpaces("") == "";
    assert "." + "" == ".";
  }

  /** A level made only of non-tag nodes has no tags. */
  lemma {:induction false} TagsOfOthers(children: seq<Node>)
    requires forall n :: n in children ==> n.Other?
    ensures Tags(children) == []
    decreases |children|
  {
    if children != [] {
      assert children[0] in children;
      assert forall n :: n in children[1..] ==> n in children;
      TagsOfOthers(children[1..]);
    }
  }

  /** A walk that starts at a level made only of non-tag nodes reaches none
      of the tags below them, whatever those subtrees hold, for either kind. */
  lemma TagBelowOtherIsUnreached(kind: SelectorKind, children: seq<Node>)
    requires forall n :: n in children ==> n.Other?
    ensures HtmlSelectors(kind, children) == []
  {
    TagsOfOthers(children);
  }
}
