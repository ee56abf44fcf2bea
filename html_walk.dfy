/** What the markup walkers of src/extractor.ts (`_extractClassNameFromHtml`,
    `_extractIdFromHtml`) compute, as functions on the document tree, and the
    proof that they emit selectors level by level. */
module HtmlWalk {
  import opened Dom
  import opened Selectors

  /** `children.flatMap(c => isTag(c) ? [c] : [])`: the tag nodes of a level, in order. */
  function Tags(children: seq<Node>): (r: seq<Element>)
    ensures |r| <= |children|
  {
    if children == [] then []
    else (if children[0].Tag? then [children[0]] else []) + Tags(children[1..])
  }

  lemma {:induction false} TagsConcat(a: seq<Node>, b: seq<Node>)
    ensures Tags(a + b) == Tags(a) + Tags(b)
    decreases |a|
  {
    if a == [] {
      assert a + b == b;
    } else {
      assert (a + b)[1..] == a[1..] + b;
      TagsConcat(a[1..], b);
    }
  }

  /** `elements.flatMap(e => e.children)`: the next level. */
  function ChildrenOf(elements: seq<Element>): seq<Node>
  {
    if elements == [] then [] else elements[0].children + ChildrenOf(elements[1..])
  }

  /** The number of nodes in a forest, counting every node kind. */
  function ForestSize(ns: seq<Node>): nat
  {
    if ns == [] then 0 else 1 + ForestSize(ns[0].children) + ForestSize(ns[1..])
  }

  /** The selectors one markup walker of the given kind appends, starting
      from the top-level children of the document: those of the tag nodes of
      this level, then those of the next level, which consists of the
      children of these tags; it stops at the first level without tags. */
  function HtmlSelectors(kind: SelectorKind, children: seq<Node>): seq<string>
    decreases ForestSize(children)
  {
    var elements := Tags(children);
    if elements == [] then []
    else
      LevelShrinks(children);
      SelectorsOf(kind, elements) + HtmlSelectors(kind, ChildrenOf(elements))
  }

  /** One step of the walk: a level with tags emits its own selectors, then
      those of the next level. */
  lemma HtmlSelectorsUnfold(kind: SelectorKind, children: seq<Node>)
    requires Tags(children) != []
    ensures HtmlSelectors(kind, children)
         == SelectorsOf(kind, Tags(children)) + HtmlSelectors(kind, ChildrenOf(Tags(children)))
  {
  }

  lemma {:induction false} ForestSizeConcat(a: seq<Node>, b: seq<Node>)
    ensures ForestSize(a + b) == ForestSize(a) + ForestSize(b)
    decreases |a|
  {
    if a != [] {
      assert (a + b)[0] == a[0];
      assert (a + b)[1..] == a[1..] + b;
      ForestSizeConcat(a[1..], b);
    } else {
      assert a + b == b;
    }
  }

  /** The next level, with one node per tag of this level taken away, is no
      larger than this level: so the walk terminates. */
  lemma {:induction false} LevelShrinks(children: seq<Node>)
    ensures ForestSize(ChildrenOf(Tags(children))) + |Tags(children)| <= ForestSize(children)
    decreases |children|
  {
    if children != [] {
      LevelShrinks(children[1..]);
      var rest := Tags(children[1..]);
      if children[0].Tag? {
        var e: Element := children[0];
        assert Tags(children) == [e] + rest;
        assert ([e] + rest)[1..] == rest;
        ForestSizeConcat(e.children, ChildrenOf(rest));
      } else {
        assert Tags(children) == rest;
      }
    }
  }

  // ---------------------------------------------------------------------
  // An independent description of the order: by depth in the tree.
  // ---------------------------------------------------------------------

  /** The tag nodes at depth `d` below the forest `children` (depth 0 is the
      forest itself) whose ancestors within the forest are all tags, in
      document order. Tags below a non-tag node are never included. */
  function TagsAtDepth(children: seq<Node>, d: nat): seq<Element>
    decreases children
  {
    if children == [] then []
    else
      (match children[0]
       case Tag(_, _, kids) => if d == 0 then [children[0]] else TagsAtDepth(kids, d - 1)
       case Other(_) => [])
      + TagsAtDepth(children[1..], d)
  }

  /** The selectors of the tags at depths `lo` up to, not including, `hi`:
      all of one depth before any of the next. */
  function ByDepth(kind: SelectorKind, children: seq<Node>, lo: nat, hi: nat): seq<string>
    decreases hi - lo
  {
    if lo >= hi then [] else SelectorsOf(kind, TagsAtDepth(children, lo)) + ByDepth(kind, children, lo + 1, hi)
  }

  lemma {:induction false} TagsAtDepthConcat(a: seq<Node>, b: seq<Node>, d: nat)
    ensures TagsAtDepth(a + b, d) == TagsAtDepth(a, d) + TagsAtDepth(b, d)
    decreases |a|
  {
    if a == [] {
      assert a + b == b;
    } else {
      assert (a + b)[0] == a[0];
      assert (a + b)[1..] == a[1..] + b;
      TagsAtDepthConcat(a[1..], b, d);
    }
  }

  /** Depth 0 is the walker's first level. */
  lemma {:induction false} TagsAtDepthZero(children: seq<Node>)
    ensures TagsAtDepth(children, 0) == Tags(children)
    decreases |children|
  {
    if children != [] {
      TagsAtDepthZero(children[1..]);
    }
  }

  /** Depth d + 1 below a forest is depth d below the walker's next level. */
  lemma {:induction false} TagsAtNextDepth(children: seq<Node>, d: nat)
    ensures TagsAtDepth(children, d + 1) == TagsAtDepth(ChildrenOf(Tags(children)), d)
    decreases |children|
  {
    if children != [] {
      TagsAtNextDepth(children[1..], d);
      var rest := Tags(children[1..]);
      if children[0].Tag? {
        var e: Element := children[0];
        assert Tags(children) == [e] + rest;
        assert ([e] + rest)[1..] == rest;
        TagsAtDepthConcat(e.children, ChildrenOf(rest), d);
      } else {
        assert Tags(children) == rest;
      }
    }
  }

  /** Once a depth holds no tags, neither does any deeper one. */
  lemma {:induction false} EmptyDepthStaysEmpty(children: seq<Node>, d: nat)
    requires TagsAtDepth(children, d) == []
    ensures TagsAtDepth(children, d + 1) == []
    decreases d
  {
    TagsAtNextDepth(children, d);
    if d == 0 {
      TagsAtDepthZero(children);
    } else {
      TagsAtNextDepth(children, d - 1);
      EmptyDepthStaysEmpty(ChildrenOf(Tags(children)), d - 1);
    }
  }

  /** No tag sits deeper than the number of nodes in the forest. */
  lemma {:induction false} TagsAtDepthBounded(children: seq<Node>, d: nat)
    requires d >= ForestSize(children)
    ensures TagsAtDepth(children, d) == []
    decreases children
  {
    if children != [] {
      var first := children[0];
      assert ForestSize(children) == 1 + ForestSize(first.children) + ForestSize(children[1..]);
      TagsAtDepthBounded(children[1..], d);
      if first.Tag? {
        TagsAtDepthBounded(first.children, d - 1);
        assert TagsAtDepth(children, d) == TagsAtDepth(first.children, d - 1) + TagsAtDepth(children[1..], d);
      }
    }
  }

  lemma {:induction false} ByDepthOfEmpty(kind: SelectorKind, children: seq<Node>, lo: nat, hi: nat)
    requires TagsAtDepth(children, lo) == []
    ensures ByDepth(kind, children, lo, hi) == []
    decreases hi - lo
  {
    if lo < hi {
      EmptyDepthStaysEmpty(children, lo);
      ByDepthOfEmpty(kind, children, lo + 1, hi);
    }
  }

  lemma {:induction false} ByDepthShift(kind: SelectorKind, children: seq<Node>, lo: nat, hi: nat)
    ensures ByDepth(kind, children, lo + 1, hi + 1) == ByDepth(kind, ChildrenOf(Tags(children)), lo, hi)
    decreases hi - lo
  {
    if lo < hi {
      TagsAtNextDepth(children, lo);
      ByDepthShift(kind, children, lo + 1, hi);
    }
  }

  /** The walker stops at the first level without tags: if depth `n` holds no
      tags, the walk's output is that of depths 0 to n - 1, each depth in
      document order, all of one depth before any of the next. */
  lemma {:induction false} HtmlSelectorsStopAtEmptyDepth(kind: SelectorKind, children: seq<Node>, n: nat)
    requires TagsAtDepth(children, n) == []
    ensures HtmlSelectors(kind, children) == ByDepth(kind, children, 0, n)
    decreases ForestSize(children)
  {
    TagsAtDepthZero(children);
    var elements := Tags(children);
    if elements == [] {
      ByDepthOfEmpty(kind, children, 0, n);
    } else {
      var next := ChildrenOf(elements);
      LevelShrinks(children);
      TagsAtNextDepth(children, n - 1);
      HtmlSelectorsStopAtEmptyDepth(kind, next, n - 1);
      ByDepthShift(kind, children, 0, n - 1);
    }
  }

  /** Level order over the whole tree: the markup walker emits the selectors
      of every depth of the document, in document order within a depth and
      shallower depths first. */
  lemma HtmlSelectorsLevelOrder(kind: SelectorKind, children: seq<Node>)
    ensures HtmlSelectors(kind, children) == ByDepth(kind, children, 0, ForestSize(children))
  {
    TagsAtDepthBounded(children, ForestSize(children));
    HtmlSelectorsStopAtEmptyDepth(kind, children, ForestSize(children));
  }

  lemma {:induction false} TagsIgnoreOther(children: seq<Node>, i: nat, cs: seq<Node>)
    requires i < |children| && children[i].Other?
    ensures Tags(children[i := Other(cs)]) == Tags(children)
    decreases |children|
  {
    if i > 0 {
      assert children[i := Other(cs)][1..] == children[1..][i - 1 := Other(cs)];
      TagsIgnoreOther(children[1..], i - 1, cs);
    }
  }

  /** What sits below a non-tag node of the first level is never visited:
      replacing its children by anything leaves the output unchanged. */
  lemma HtmlSelectorsIgnoreOtherChildren(kind: SelectorKind, children: seq<Node>, i: nat, cs: seq<Node>)
    requires i < |children| && children[i].Other?
    ensures HtmlSelectors(kind, children[i := Other(cs)]) == HtmlSelectors(kind, children)
  {
    TagsIgnoreOther(children, i, cs);
  }
}
