/** What the JSX walkers of src/extractor.ts (`_extractClassNameFromJsx`,
    `_extractIdFromJsx`) compute, as functions on the syntax tree, with the
    lemmas that make their depth-first pre-order precise. */
module JsxWalk {
  import opened Estree
  import opened Utils
  import opened Selectors

  /** What one opening-tag attribute contributes: a class attribute (`className`
      or `class`) gives `.` and its value with spaces turned into dots, an `id`
      attribute gives `#` and its raw value. Empty values are kept. */
  function AttributeSelector(kind: SelectorKind, attr: JsxAttribute): seq<string>
  {
    match kind
    case ClassKind => if IsClassName(attr) then ["." + ReplaceSpaces(attr.value)] else []
    case IdKind => if IsId(attr) then ["#" + attr.value] else []
  }

  /** `attributes.filter(isClassName).map(...)`, or `filter(isId).map(...)`. */
  function AttributeSelectors(kind: SelectorKind, attributes: seq<JsxAttribute>): seq<string>
  {
    if attributes == [] then []
    else AttributeSelector(kind, attributes[0]) + AttributeSelectors(kind, attributes[1..])
  }

  /** The selectors a JSX walker of the given kind appends for a list of
      children: element by element, an element's own attribute selectors,
      then those of its children; a child that is not a JSX element adds
      nothing and its later siblings are still walked. */
  function JsxSelectors(kind: SelectorKind, children: seq<Expression>): seq<string>
  {
    if children == [] then []
    else
      (match children[0]
       case JSXElement(attributes, kids) => AttributeSelectors(kind, attributes) + JsxSelectors(kind, kids)
       case OtherExpression(_) => [])
      + JsxSelectors(kind, children[1..])
  }

  /** Whether an attribute is one a walker of the given kind reads. */
  predicate Matches(kind: SelectorKind, attr: JsxAttribute)
  {
    match kind
    case ClassKind => IsClassName(attr)
    case IdKind => IsId(attr)
  }

  lemma {:induction false} AttributeSelectorsConcat(kind: SelectorKind, a: seq<JsxAttribute>, b: seq<JsxAttribute>)
    ensures AttributeSelectors(kind, a + b) == AttributeSelectors(kind, a) + AttributeSelectors(kind, b)
    decreases |a|
  {
    if a == [] {
      assert a + b == b;
    } else {
      assert (a + b)[0] == a[0];
      assert (a + b)[1..] == a[1..] + b;
      AttributeSelectorsConcat(kind, a[1..], b);
    }
  }

  /** No filter for empty values: every matching attribute, whatever its value,
      adds exactly one selector, in attribute order, and every other
      attribute adds none. */
  lemma AttributeSelectorsAppend(kind: SelectorKind, attributes: seq<JsxAttribute>, attr: JsxAttribute)
    ensures AttributeSelectors(kind, attributes + [attr])
         == AttributeSelectors(kind, attributes)
            + (if Matches(kind, attr)
               then [if kind == ClassKind then "." + ReplaceSpaces(attr.value) else "#" + attr.value]
               else [])
  {
    AttributeSelectorsConcat(kind, attributes, [attr]);
    assert [attr][1..] == [];
  }

  /** Siblings are walked left to right: the selectors of two adjacent runs of
      children are those of the first run followed by those of the second. */
  lemma {:induction false} JsxSelectorsConcat(kind: SelectorKind, a: seq<Expression>, b: seq<Expression>)
    ensures JsxSelectors(kind, a + b) == JsxSelectors(kind, a) + JsxSelectors(kind, b)
    decreases |a|
  {
    if a == [] {
      assert a + b == b;
    } else {
      assert (a + b)[0] == a[0];
      assert (a + b)[1..] == a[1..] + b;
      JsxSelectorsConcat(kind, a[1..], b);
    }
  }

  /** The selectors of one child: an element's attribute selectors, then those
      of its children; nothing for any other child. */
  lemma JsxSelectorsSingle(kind: SelectorKind, e: Expression)
    ensures JsxSelectors(kind, [e])
         == if e.JSXElement? then AttributeSelectors(kind, e.attributes) + JsxSelectors(kind, e.children) else []
  {
    assert [e][1..] == [];
  }

  /** Pre-order: among siblings `before`, an element and `after`, the
      element's own attribute selectors come after everything of `before`,
      then come those of its whole subtree, then everything of `after`. A child
      that is not an element contributes nothing and does not stop the walk. */
  lemma JsxSelectorsPreOrder(kind: SelectorKind, before: seq<Expression>, e: Expression, after: seq<Expression>)
    ensures JsxSelectors(kind, before + [e] + after)
         == JsxSelectors(kind, before)
            + (if e.JSXElement? then AttributeSelectors(kind, e.attributes) + JsxSelectors(kind, e.children) else [])
            + JsxSelectors(kind, after)
  {
    JsxSelectorsConcat(kind, before + [e], after);
    JsxSelectorsConcat(kind, before, [e]);
    assert [e][1..] == [];
  }
}
