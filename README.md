# CSS selector extractor

This project models the core of the selector extractor of `vscode-css-tractor`. The extractor turns a parsed document into the ordered list of CSS class selectors (`.a.b`) and id selectors (`#x`) that the document uses. It has two modes:

- **Markup mode (`html`).** The walker goes through the document tree level by level. At each level it keeps the tag nodes and emits their `class` (or `id`) attribute, then continues with the concatenated children of those tags. It stops at the first level that has no tags.
- **Component mode (`jsx`).** The roots are the JSX elements that a top-level `export function` returns directly from its body. Each root is walked depth-first in pre-order: an element's matching attributes first, then its children, left to right. Children that are not elements are skipped.

The model is split into these modules:

- `Dom`: the markup parser's output. `Tag(name, attribs, children)` is a tag node. `Other(children)` is every other kind of node. `Element` is the subset type of tag nodes.
- `Estree`: the parts of the script syntax tree the extractor looks at. A constructor per node kind it tests for, plus an `Other…` constructor whose `type` tag can never be one of the tested kinds.
- `Utils`: the six predicates on node `type` tags and attribute names.
- `Selectors`: `getClassNames`, `getIds` and the space-to-dot replacement.
- `HtmlWalk`: what the markup walkers compute, and the proof that it is level order. `TagsAtDepth` and `ByDepth` give an independent description by depth in the tree.
- `JsxWalk`: what the JSX walkers compute, with the lemmas that fix the pre-order.
- `Components`: the component adapter that finds the roots.
- `Extractor`: the `ExtractorImpl` class.
  - Its accumulator fields `classNames` and `ids` start empty in the constructor and are only ever appended to.
  - The two entry methods and the four private walkers are methods with loops and recursion. Each is proved to append exactly the selectors its specification function gives.
  - Client methods show that a second call on the same extractor returns the earlier results followed by the new ones.
- `Fixtures`: the test scenarios, on hand-built trees whose attribute values are parameters.

The two foreign parsers are passed to the entry methods as the functions in `Parsers`. The extractor's behaviour is stated for whatever tree they return.

Behaviour of the code worth noting:

- The markup walkers visit the tree level by level: every tag at one depth comes before any deeper tag.
- Each space in a class value becomes a dot, so a run of n spaces gives n dots.
- In component mode, an empty class or id value still gives a selector (`class=""` gives `.`). In markup mode it gives none.
- The accumulators are never reset: each call adds to the results of earlier calls.

## Model

| member | source | states |
|---|---|---|
| `Utils.IsExportNamedDeclaration` | src/utils.ts:13-17 | holds exactly for an `ExportNamedDeclaration` node |
| `Utils.IsFunctionDeclaration` | src/utils.ts:19-23 | false for a missing declaration; otherwise holds exactly for a `FunctionDeclaration` |
| `Utils.IsJSXElement` | src/utils.ts:25-29 | false for a missing expression; otherwise holds exactly for a `JSXElement` |
| `Utils.IsReturnStatement` | src/utils.ts:31-35 | holds exactly for a `ReturnStatement` node |
| `Utils.IsClassName` | src/utils.ts:37-39 | definition: an attribute named `className` or `class`; its partner is `Utils.IsId`, whose contract makes the two disjoint |
| `Utils.IsId` | src/utils.ts:37-43 | an attribute named `id` is never also a class attribute (`className` or `class`) |
| `Selectors.ReplaceSpaces` | src/extractor.ts:149 | keeps the length and leaves no space in the result |
| `Selectors.ReplaceSpacesAt` | src/extractor.ts:149 | at each position a space becomes `.` and any other character is kept |
| `Selectors.ReplaceSpacesConcat` | src/extractor.ts:149 | the replacement works character by character, so it distributes over concatenation |
| `Selectors.ReplaceSpacesNoSpace` | src/extractor.ts:149 | a value without spaces is unchanged |
| `Selectors.ReplaceSpacesJoin` | src/extractor.ts:145-152 | space-free class names joined by spaces become the same names joined by dots (`a b c` gives `a.b.c`) |
| `Selectors.Truthy` | src/extractor.ts:148 | definition: JavaScript truthiness of a string attribute, that is, present and not empty |
| `Selectors.ClassNameOf` | src/extractor.ts:146-149 | definition: one element's class attribute as one selector with spaces turned into dots, or nothing when it is not truthy |
| `Selectors.IdOf` | src/extractor.ts:155-158 | definition: one element's raw id prefixed by `#`, or nothing when it is not truthy |
| `Selectors.GetClassNames` | src/extractor.ts:145-152 | at most one selector per element; each is `.` plus a non-empty value, with no space |
| `Selectors.GetIds` | src/extractor.ts:154-161 | at most one selector per element; each is `#` plus a non-empty value |
| `Selectors.SelectorsOfSingle` | src/extractor.ts:145-161 | on a single element, each helper gives exactly that element's contribution |
| `Selectors.SelectorsOfConcat` | src/extractor.ts:145-161 | both helpers handle each element independently and in element order (distribute over concatenation) |
| `HtmlWalk.ChildrenOf` | src/extractor.ts:93 | definition: the next level of the markup walk, the children of each tag in order |
| `HtmlWalk.HtmlSelectors` | src/extractor.ts:83-95 | definition (for both walkers, `_extractIdFromHtml` at lines 113-123 with the id kind): the walk's output, this level's selectors then the next level's, empty at the first level without tags; specifies the two markup walker methods |
| `HtmlWalk.Tags` | src/extractor.ts:84 | keeps at most as many nodes as it is given |
| `HtmlWalk.TagsConcat` | src/extractor.ts:84 | the tag filter keeps document order (distributes over concatenation) |
| `HtmlWalk.LevelShrinks` | src/extractor.ts:92-94 | the next level has fewer nodes than the current one, so the walk terminates |
| `HtmlWalk.TagsAtNextDepth` | src/extractor.ts:93 | the tags d+1 levels below a level are the tags d levels below the next level, the children of the level's tags |
| `HtmlWalk.HtmlSelectorsStopAtEmptyDepth` | src/extractor.ts:83-95 | if depth n holds no tags, the output is the selectors of depths 0 to n-1, each depth in document order, shallower depths first |
| `HtmlWalk.HtmlSelectorsLevelOrder` | src/extractor.ts:83-95 | the markup walk's output is the selectors of every depth of the tree, depth by depth |
| `HtmlWalk.HtmlSelectorsIgnoreOtherChildren` | src/extractor.ts:84-87 | the children of a non-tag node of the walked level are never visited: replacing them changes nothing |
| `JsxWalk.AttributeSelectors` | src/extractor.ts:103-107 | definition: the selectors of an opening tag's matching attributes, in attribute order (lines 131-134 for ids) |
| `JsxWalk.JsxSelectors` | src/extractor.ts:97-111 | definition (for both walkers, `_extractIdFromJsx` at lines 125-138 with the id kind): the pre-order walk of a list of children; specifies the two JSX walker methods |
| `JsxWalk.AttributeSelectorsAppend` | src/extractor.ts:103-107 | every matching attribute adds exactly one selector, whatever its value; other attributes add none |
| `JsxWalk.JsxSelectorsConcat` | src/extractor.ts:98-110 | siblings are walked left to right |
| `JsxWalk.JsxSelectorsSingle` | src/extractor.ts:98-109 | an element child gives its attribute selectors, then its children's; any other child gives nothing |
| `JsxWalk.JsxSelectorsPreOrder` | src/extractor.ts:97-111 | an element's own attribute selectors come before its subtree's; a non-element child adds nothing and its later siblings are still walked |
| `Components.ReturnedBy` | src/extractor.ts:47-50 | definition: the element of a `return <JSXElement>` statement, nothing for any other statement |
| `Components.ReturnedJsx` | src/extractor.ts:46-51 | definition: the elements a function body returns directly, in body order |
| `Components.RootsOf` | src/extractor.ts:42-52 | definition: for an exported function declaration the elements its body returns directly, nothing for any other statement |
| `Components.JsxRoots` | src/extractor.ts:41-53 | definition: the roots of the walk, statement by statement in module order |
| `Components.ReturnedJsxStep` | src/extractor.ts:46-51 | a body statement adds a root exactly when it is `return` of a JSX element |
| `Components.ReturnedJsxExactly` | src/extractor.ts:46-51 | an element is returned by a body exactly when the body holds `return` of it and it is a JSX element |
| `Components.JsxRootsStep` | src/extractor.ts:41-53 | a top-level statement adds the JSX elements its exported function's body returns directly; no other statement adds any |
| `Components.JsxRootsConcat` | src/extractor.ts:41-53 | roots are taken in module order |
| `Components.JsxRootsExactly` | src/extractor.ts:41-53 | an element is a root exactly when some top-level statement exports a function that returns it directly |
| `Extractor.Extracted` | src/extractor.ts:34-81 | definition: what one call appends, the markup walk of the parsed document or the JSX walk of the parsed module's roots; specifies the two entry methods |
| `Extractor.ExtractorImpl.constructor` | src/extractor.ts:28-32 | both accumulators start empty; the file type is the one given |
| `Extractor.ExtractorImpl.ExtractClassName` | src/extractor.ts:34-57 | appends the class selectors of the parsed contents (per mode) to the earlier ones, leaves the ids alone, and returns the whole accumulator |
| `Extractor.ExtractorImpl.ExtractClassNameFromModule` | src/extractor.ts:41-53 | appends the class selectors of every root of the module, in module order |
| `Extractor.ExtractorImpl.ExtractClassNameFromFunctionBody` | src/extractor.ts:46-51 | appends the class selectors of each JSX element the body returns, in body order |
| `Extractor.ExtractorImpl.ExtractId` | src/extractor.ts:59-81 | appends the id selectors of the parsed contents (per mode) to the earlier ones, leaves the class names alone, and returns the whole accumulator |
| `Extractor.ExtractorImpl.ExtractIdFromModule` | src/extractor.ts:66-78 | appends the id selectors of every root of the module, in module order |
| `Extractor.ExtractorImpl.ExtractIdFromFunctionBody` | src/extractor.ts:71-76 | appends the id selectors of each JSX element the body returns, in body order |
| `Extractor.ExtractorImpl.ExtractClassNameFromHtml` | src/extractor.ts:83-95 | appends exactly the level-order class selectors of the given level and below |
| `Extractor.ExtractorImpl.ExtractClassNameFromJsx` | src/extractor.ts:97-111 | appends exactly the pre-order class selectors of the given children |
| `Extractor.ExtractorImpl.ExtractIdFromHtml` | src/extractor.ts:113-123 | appends exactly the level-order id selectors of the given level and below |
| `Extractor.ExtractorImpl.ExtractIdFromJsx` | src/extractor.ts:125-138 | appends exactly the pre-order id selectors of the given children |
| `Extractor.CreateExtractor` | src/extractor.ts:141-143 | a fresh extractor with the given file type and empty accumulators |
| `Extractor.ExtractClassNameTwice` | src/extractor.ts:28-57 | a second call on one extractor returns the first call's selectors followed by the second's; the ids stay empty |
| `Extractor.ExtractIdTwice` | src/extractor.ts:59-81 | the same for ids; the class names stay empty |
| `Extractor.FreshExtractorsAgree` | src/extractor.ts:141-143 | two fresh extractors return the same class selectors for the same contents |
| `Fixtures.HtmlIdsInLevelOrder` | src/__tests__/test_extractor.ts:35-47 | on the id page in markup, header and footer ids come before the title id nested in the header |
| `Fixtures.IdModuleRoots` | src/__tests__/test_extractor.ts:76-88 | the id component module (testcases/jsx/id.jsx) has one root, the element its exported function returns |
| `Fixtures.JsxIdsInPreOrder` | src/__tests__/test_extractor.ts:76-88 | the module's only root is the returned `<div>`; on a page of that shape (testcases/jsx/id.jsx with the article's children elided, which carry no ids) the title id comes between the header and footer ids |
| `Fixtures.MultipleClassesMakeOneSelector` | src/__tests__/test_extractor.ts:21-33 | a non-empty class attribute made of space-free words joined by spaces gives one selector, the words joined by dots (a leading space gives a leading extra dot) |
| `Fixtures.IdKeepsSpaces` | src/extractor.ts:154-161 | for any tag name, children and id value (spaces included), markup mode gives `#` and the raw value when the value is non-empty and nothing when it is empty; component mode gives `#` and the raw value for every value |
| `Fixtures.EmptyClassValue` | src/extractor.ts:145-152 | on any tag with any other attributes and children, an empty `class` attribute gives nothing in markup mode; in component mode an empty `class` or `className` gives `.` |
| `Fixtures.TagBelowOtherIsUnreached` | src/extractor.ts:84-87 | a markup walk of either kind that starts at a level made only of non-tag nodes gives nothing, whatever tags lie below them |

## Left out

- Parsing: `parseDocument` (htmlparser2) and `esprima.parseModule`. The model passes them in as the functions in `Extractor.Parsers` and takes their output as given. So the model does not capture the exceptions `parseModule` throws on malformed input. After such an exception the accumulators are unchanged, since the throw comes before any append.
- domhandler's `isTag` and the TypeScript casts (`as JSXElement`). The `Tag` constructor and the `Element` subset type stand in for them.
- JSX attributes that match (`className`, `class` or `id`) but have no string-literal value are left out, because `Estree.JsxAttribute` has a string name and a string value only. In the source, a matching attribute with an expression value gives `.undefined` or `#undefined` (src/extractor.ts:106, 134), and a matching attribute with no value throws on `value.value`.
- Spread attributes (`{...props}`) are left out. In the source they throw inside `isClassName` or `isId`, because `attr.name` is undefined. That throw comes after the earlier pushes of the same walk, so it leaves the accumulator partly extended. The model does not capture that partial result.
- Attributes with a namespaced name (`xlink:href`) or with an expression value under any other name (`onClick={f}`) match neither predicate and are skipped in the source. The model covers them as attributes whose name is none of the three.
- Node kinds the extractor never tests for keep only their `type` tag. Their contents are dropped, since no code path reads them. In particular, a `return` nested inside a block, loop or inner function has no way to become a root.
- Aliasing of the returned array. The source returns the accumulator array itself. In JSX mode, later `push` calls therefore show through a previously returned array; in markup mode `concat` replaces it. The model returns the value of the accumulator at the time of return.
- The test harness's file reading and the fixture files under `testcases/`, except as evidence. `Fixtures.IdPage` rebuilds the markup id page from the JSX fixture's structure and the test's expected output, because the markup fixture file is not part of this model.
- `HtmlWalk.Tags`: its contract states only the size bound. Which nodes it keeps, and in what order, follows from its definition and `HtmlWalk.TagsConcat`.
