/** The pure helpers of src/extractor.ts that turn the tag nodes of one level
    of the document into selector strings: `getClassNames` and `getIds`. */
module Selectors {
  import opened Dom

  /** Associativity of sequence concatenation. Dafny proves it unaided; it is
      stated here, for any element type, only as a hint that the accumulator
      proofs call, because proving it directly on sequences of strings is
      costly for the solver. */
  lemma AppendAssoc<T>(a: seq<T>, b: seq<T>, c: seq<T>)
    ensures a + b + c == a + (b + c)
  {
  }

  /** Which of the two selector kinds an extraction collects. */
  datatype SelectorKind = ClassKind | IdKind

  /** `s.replace(/ /g, '.')`: every single space becomes a dot and nothing
      else changes, so a run of n spaces becomes n dots. */
  function ReplaceSpaces(s: string): (r: string)
    ensures |r| == |s|
    ensures ' ' !in r
  {
    if s == [] then [] else [if s[0] == ' ' then '.' else s[0]] + ReplaceSpaces(s[1..])
  }

  /** Position by position: a space becomes a dot, any other character stays. */
  lemma {:induction false} ReplaceSpacesAt(s: string, i: nat)
    requires i < |s|
    ensures ReplaceSpaces(s)[i] == if s[i] == ' ' then '.' else s[i]
    decreases |s|
  {
    if i > 0 {
      ReplaceSpacesAt(s[1..], i - 1);
    }
  }

  lemma {:induction false} ReplaceSpacesConcat(a: string, b: string)
    ensures ReplaceSpaces(a + b) == ReplaceSpaces(a) + ReplaceSpaces(b)
    decreases |a|
  {
    if a == [] {
      assert a + b == b;
    } else {
      assert (a + b)[1..] == a[1..] + b;
      ReplaceSpacesConcat(a[1..], b);
    }
  }

  /** A value without spaces is left as it is. */
  lemma {:induction false} ReplaceSpacesNoSpace(s: string)
    requires ' ' !in s
    ensures ReplaceSpaces(s) == s
    decreases |s|
  {
    if s != [] {
      assert s[0] in s;
      assert s == [s[0]] + s[1..];
      ReplaceSpacesNoSpace(s[1..]);
    }
  }

  /** The words of `words` joined by `sep`. */
  function Join(words: seq<string>, sep: char): string
  {
    if |words| <= 1 then (if words == [] then "" else words[0])
    else words[0] + [sep] + Join(words[1..], sep)
  }

  /** Space-separated class names, none of them containing a space, become
      the same names joined by dots: `"a b c"` becomes `"a.b.c"`. */
  lemma {:induction false} ReplaceSpacesJoin(words: seq<string>)
    requires forall w :: w in words ==> ' ' !in w
    ensures ReplaceSpaces(Join(words, ' ')) == Join(words, '.')
    decreases |words|
  {
    if |words| == 1 {
      ReplaceSpacesNoSpace(words[0]);
    } else if |words| > 1 {
      assert words[0] in words;
      ReplaceSpacesNoSpace(words[0]);
      assert forall w :: w in words[1..] ==> w in words;
      ReplaceSpacesJoin(words[1..]);
      ReplaceSpacesConcat(words[0] + [' '], Join(words[1..], ' '));
      ReplaceSpacesConcat(words[0], [' ']);
      assert ReplaceSpaces([' ']) == ['.'];
    }
  }

  /** JavaScript's `!!attribs[name]` for a string-valued attribute: present and not empty. */
  predicate Truthy(attribs: map<string, string>, name: string)
  {
    name in attribs && attribs[name] != ""
  }

  /** What one element contributes to `getClassNames`: its whole class
      attribute as one selector, or nothing. */
  function ClassNameOf(e: Element): seq<string>
  {
    if Truthy(e.attribs, "class") then ["." + ReplaceSpaces(e.attribs["class"])] else []
  }

  /** What one element contributes to `getIds`: its raw id, or nothing. */
  function IdOf(e: Element): seq<string>
  {
    if Truthy(e.attribs, "id") then ["#" + e.attribs["id"]] else []
  }

  /** A class selector as `getClassNames` writes it: a dot, then at least one
      character, and no space anywhere. */
  predicate WellFormedClassSelector(s: string)
  {
    |s| >= 2 && s[0] == '.' && ' ' !in s
  }

  /** An id selector as `getIds` writes it: `#` and a non-empty value. */
  predicate WellFormedIdSelector(s: string)
  {
    |s| >= 2 && s[0] == '#'
  }

  /** `getClassNames`: for each element in order whose class attribute is
      truthy, one selector. */
  function GetClassNames(elements: seq<Element>): (r: seq<string>)
    ensures |r| <= |elements|
    ensures forall s :: s in r ==> WellFormedClassSelector(s)
  {
    if elements == [] then [] else ClassNameOf(elements[0]) + GetClassNames(elements[1..])
  }

  /** `getIds`: for each element in order whose id attribute is truthy, one selector. */
  function GetIds(elements: seq<Element>): (r: seq<string>)
    ensures |r| <= |elements|
    ensures forall s :: s in r ==> WellFormedIdSelector(s)
  {
    if elements == [] then [] else IdOf(elements[0]) + GetIds(elements[1..])
  }

  /** The helper a walker of the given kind applies to one level. */
  function SelectorsOf(kind: SelectorKind, elements: seq<Element>): seq<string>
  {
    match kind
    case ClassKind => GetClassNames(elements)
    case IdKind => GetIds(elements)
  }

  /** What one element contributes to the helper of the given kind. */
  function SelectorOf(kind: SelectorKind, e: Element): seq<string>
  {
    match kind
    case ClassKind => ClassNameOf(e)
    case IdKind => IdOf(e)
  }

  /** A single element's helper output is what that element contributes. */
  lemma SelectorsOfSingle(kind: SelectorKind, e: Element)
    ensures SelectorsOf(kind, [e]) == SelectorOf(kind, e)
  {
    assert [e][1..] == [];
  }

  /** Both helpers are a map/filter pipeline: the selectors of a concatenation
      of element lists are those of the first list followed by those of the
      second. With `SelectorsOf(kind, [e]) == SelectorOf(kind, e)` this fixes
      the output exactly: order is element order, and each element
      contributes independently of its neighbours. */
  lemma {:induction false} SelectorsOfConcat(kind: SelectorKind, a: seq<Element>, b: seq<Element>)
    ensures SelectorsOf(kind, a + b) == SelectorsOf(kind, a) + SelectorsOf(kind, b)
    decreases |a|
  {
    if a == [] {
      assert a + b == b;
    } else {
      assert (a + b)[1..] == a[1..] + b;
      SelectorsOfConcat(kind, a[1..], b);
    }
  }
}
