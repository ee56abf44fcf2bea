/** The extractor of src/extractor.ts: an object configured with a file type
    that accumulates class and id selectors across calls. */
module Extractor {
  import opened Dom
  import opened Estree
  import opened Utils
  import opened Selectors
  import opened HtmlWalk
  import opened JsxWalk
  import opened Components

  datatype Filetype = Html | Jsx

  /** The two foreign parsers the extractor calls: `parseDocument` of
      htmlparser2 and `esprima.parseModule` with JSX enabled. */
  datatype Parsers = Parsers(parseDocument: string -> Document, parseModule: string -> Program)

  /** The selectors one call of `extractClassName` (ClassKind) or `extractId`
      (IdKind) appends for `contents`: in markup mode the level-order walk of
      the document, in component mode the pre-order walk of each root the
      adapter finds, in order. */
  function Extracted(kind: SelectorKind, filetype: Filetype, parsers: Parsers, contents: string): seq<string>
  {
    match filetype
    case Html => HtmlSelectors(kind, parsers.parseDocument(contents).children)
    case Jsx => JsxSelectors(kind, JsxRoots(parsers.parseModule(contents).body))
  }

  /** One more top-level statement appends the selectors of the roots it
      contributes. */
  lemma RootSelectorsStep(kind: SelectorKind, moduleBody: seq<Statement>, i: nat)
    requires i < |moduleBody|
    ensures JsxSelectors(kind, JsxRoots(moduleBody[..i + 1]))
         == JsxSelectors(kind, JsxRoots(moduleBody[..i])) + JsxSelectors(kind, RootsOf(moduleBody[i]))
  {
    JsxRootsStep(moduleBody, i);
    JsxSelectorsConcat(kind, JsxRoots(moduleBody[..i]), RootsOf(moduleBody[i]));
  }

  /** One more statement of a function body appends the selectors of the
      element it returns, if any. */
  lemma ReturnedSelectorsStep(kind: SelectorKind, body: seq<Statement>, j: nat)
    requires j < |body|
    ensures JsxSelectors(kind, ReturnedJsx(body[..j + 1]))
         == JsxSelectors(kind, ReturnedJsx(body[..j])) + JsxSelectors(kind, ReturnedBy(body[j]))
  {
    ReturnedJsxStep(body, j);
    JsxSelectorsConcat(kind, ReturnedJsx(body[..j]), ReturnedBy(body[j]));
  }

  class ExtractorImpl {
    var classNames: seq<string>
    var ids: seq<string>
    const filetype: Filetype

    /** The accumulators start empty, here and only here. */
    constructor (filetype: Filetype)
      ensures this.filetype == filetype
      ensures classNames == [] && ids == []
    {
      classNames := [];
      ids := [];
      this.filetype := filetype;
    }

    /** Appends the class selectors of `contents` to those of earlier calls and
        returns them all; the ids are left alone. */
    method ExtractClassName(contents: string, parsers: Parsers) returns (r: seq<string>)
      modifies this`classNames
      ensures classNames == old(classNames) + Extracted(ClassKind, filetype, parsers, contents)
      ensures ids == old(ids)
      ensures r == classNames
    {
      if filetype == Html {
        var root := parsers.parseDocument(contents);
        ExtractClassNameFromHtml(root.children);
      } else {
        var result := parsers.parseModule(contents);
        ExtractClassNameFromModule(result.body);
      }
      r := classNames;
    }

    /** The component-mode scan of the module's top-level statements: each
        exported function declaration has its body handed to the callback. */
    method ExtractClassNameFromModule(moduleBody: seq<Statement>)
      modifies this`classNames
      ensures classNames == old(classNames) + JsxSelectors(ClassKind, JsxRoots(moduleBody))
    {
      var i := 0;
      while i < |moduleBody|
        invariant 0 <= i <= |moduleBody|
        invariant classNames == old(classNames) + JsxSelectors(ClassKind, JsxRoots(moduleBody[..i]))
      {
        var value := moduleBody[i];
        ghost var done := JsxSelectors(ClassKind, JsxRoots(moduleBody[..i]));
        ghost var added := JsxSelectors(ClassKind, RootsOf(value));
        RootSelectorsStep(ClassKind, moduleBody, i);
        if IsExportNamedDeclaration(value) && IsFunctionDeclaration(value.declaration) {
          ExtractClassNameFromFunctionBody(value.declaration.value.body);
        } else {
          assert added == [];
        }
        AppendAssoc(old(classNames), done, added);
        i := i + 1;
      }
      assert moduleBody[..i] == moduleBody;
    }

    /** The callback run on the body of each exported function: walks each
        JSX element the body returns directly, in body order. */
    method ExtractClassNameFromFunctionBody(body: seq<Statement>)
      modifies this`classNames
      ensures classNames == old(classNames) + JsxSelectors(ClassKind, ReturnedJsx(body))
    {
      var j := 0;
      while j < |body|
        invariant 0 <= j <= |body|
        invariant classNames == old(classNames) + JsxSelectors(ClassKind, ReturnedJsx(body[..j]))
      {
        var value := body[j];
        ghost var done := JsxSelectors(ClassKind, ReturnedJsx(body[..j]));
        ghost var added := JsxSelectors(ClassKind, ReturnedBy(value));
        ReturnedSelectorsStep(ClassKind, body, j);
        if IsReturnStatement(value) && IsJSXElement(value.argument) {
          ExtractClassNameFromJsx([value.argument.value]);
        } else {
          assert added == [];
        }
        AppendAssoc(old(classNames), done, added);
        j := j + 1;
      }
      assert body[..j] == body;
    }

    /** Appends the id selectors of `contents` to those of earlier calls and
        returns them all; the class names are left alone. */
    method ExtractId(contents: string, parsers: Parsers) returns (r: seq<string>)
      modifies this`ids
      ensures ids == old(ids) + Extracted(IdKind, filetype, parsers, contents)
      ensures classNames == old(classNames)
      ensures r == ids
    {
      if filetype == Html {
        var root := parsers.parseDocument(contents);
        ExtractIdFromHtml(root.children);
      } else {
        var result := parsers.parseModule(contents);
        ExtractIdFromModule(result.body);
      }
      r := ids;
    }

    /** The component-mode scan of the module's top-level statements: each
        exported function declaration has its body handed to the callback. */
    method ExtractIdFromModule(moduleBody: seq<Statement>)
      modifies this`ids
      ensures ids == old(ids) + JsxSelectors(IdKind, JsxRoots(moduleBody))
    {
      var i := 0;
      while i < |moduleBody|
        invariant 0 <= i <= |moduleBody|
        invariant ids == old(ids) + JsxSelectors(IdKind, JsxRoots(moduleBody[..i]))
      {
        var value := moduleBody[i];
        ghost var done := JsxSelectors(IdKind, JsxRoots(moduleBody[..i]));
        ghost var added := JsxSelectors(IdKind, RootsOf(value));
        RootSelectorsStep(IdKind, moduleBody, i);
        if IsExportNamedDeclaration(value) && IsFunctionDeclaration(value.declaration) {
          ExtractIdFromFunctionBody(value.declaration.value.body);
        } else {
          assert added == [];
        }
        AppendAssoc(old(ids), done, added);
        i := i + 1;
      }
      assert moduleBody[..i] == moduleBody;
    }

    /** The callback run on the body of each exported function: walks each
        JSX element the body returns directly, in body order. */
    method ExtractIdFromFunctionBody(body: seq<Statement>)
      modifies this`ids
      ensures ids == old(ids) + JsxSelectors(IdKind, ReturnedJsx(body))
    {
      var j := 0;
      while j < |body|
        invariant 0 <= j <= |body|
        invariant ids == old(ids) + JsxSelectors(IdKind, ReturnedJsx(body[..j]))
      {
        var value := body[j];
        ghost var done := JsxSelectors(IdKind, ReturnedJsx(body[..j]));
        ghost var added := JsxSelectors(IdKind, ReturnedBy(value));
        ReturnedSelectorsStep(IdKind, body, j);
        if IsReturnStatement(value) && IsJSXElement(value.argument) {
          ExtractIdFromJsx([value.argument.value]);
        } else {
          assert added == [];
        }
        AppendAssoc(old(ids), done, added);
        j := j + 1;
      }
      assert body[..j] == body;
    }

    /** One level of the markup walk, then the next, until a level has no tags. */
    method ExtractClassNameFromHtml(children: seq<Node>)
      modifies this`classNames
      ensures classNames == old(classNames) + HtmlSelectors(ClassKind, children)
      decreases ForestSize(children)
    {
      var elements := Tags(children);
      if |elements| == 0 {
        return;
      }
      var classNames' := GetClassNames(elements);
      classNames := classNames + classNames';
      LevelShrinks(children);
      ExtractClassNameFromHtml(ChildrenOf(elements));
      AppendAssoc(old(classNames), classNames', HtmlSelectors(ClassKind, ChildrenOf(elements)));
    }

    /** Each JSX element among `children`: its class attributes, then its children. */
    method ExtractClassNameFromJsx(children: seq<Expression>)
      modifies this`classNames
      ensures classNames == old(classNames) + JsxSelectors(ClassKind, children)
      decreases children
    {
      var i := 0;
      while i < |children|
        invariant 0 <= i <= |children|
        invariant classNames == old(classNames) + JsxSelectors(ClassKind, children[..i])
      {
        var element := children[i];
        ghost var before := classNames;
        if IsJSXElement(Some(element)) {
          var attributes := element.attributes;
          var j := 0;
          while j < |attributes|
            invariant 0 <= j <= |attributes|
            invariant classNames == before + AttributeSelectors(ClassKind, attributes[..j])
          {
            if IsClassName(attributes[j]) {
              classNames := classNames + ["." + ReplaceSpaces(attributes[j].value)];
            }
            assert attributes[..j + 1] == attributes[..j] + [attributes[j]];
            AttributeSelectorsAppend(ClassKind, attributes[..j], attributes[j]);
            AppendAssoc(before, AttributeSelectors(ClassKind, attributes[..j]), AttributeSelectors(ClassKind, [attributes[j]]));
            j := j + 1;
          }
          assert attributes[..j] == attributes;
          ExtractClassNameFromJsx(element.children);
          AppendAssoc(before, AttributeSelectors(ClassKind, attributes), JsxSelectors(ClassKind, element.children));
        }
        assert children[..i + 1] == children[..i] + [element];
        JsxSelectorsConcat(ClassKind, children[..i], [element]);
        JsxSelectorsSingle(ClassKind, element);
        AppendAssoc(old(classNames), JsxSelectors(ClassKind, children[..i]), JsxSelectors(ClassKind, [element]));
        i := i + 1;
      }
      assert children[..i] == children;
    }

    /** One level of the markup walk, then the next, until a level has no tags. */
    method ExtractIdFromHtml(children: seq<Node>)
      modifies this`ids
      ensures ids == old(ids) + HtmlSelectors(IdKind, children)
      decreases ForestSize(children)
    {
      var elements := Tags(children);
      if |elements| == 0 {
        return;
      }
      var ids' := GetIds(elements);
      ids := ids + ids';
      LevelShrinks(children);
      ExtractIdFromHtml(ChildrenOf(elements));
      AppendAssoc(old(ids), ids', HtmlSelectors(IdKind, ChildrenOf(elements)));
    }

    /** Each JSX element among `children`: its id attributes, then its children. */
    method ExtractIdFromJsx(children: seq<Expression>)
      modifies this`ids
      ensures ids == old(ids) + JsxSelectors(IdKind, children)
      decreases children
    {
      var i := 0;
      while i < |children|
        invariant 0 <= i <= |children|
        invariant ids == old(ids) + JsxSelectors(IdKind, children[..i])
      {
        var element := children[i];
        ghost var before := ids;
        if IsJSXElement(Some(element)) {
          var attributes := element.attributes;
          var j := 0;
          while j < |attributes|
            invariant 0 <= j <= |attributes|
            invariant ids == before + AttributeSelectors(IdKind, attributes[..j])
          {
            if IsId(attributes[j]) {
              ids := ids + ["#" + attributes[j].value];
            }
            assert attributes[..j + 1] == attributes[..j] + [attributes[j]];
            AttributeSelectorsAppend(IdKind, attributes[..j], attributes[j]);
            AppendAssoc(before, AttributeSelectors(IdKind, attributes[..j]), AttributeSelectors(IdKind, [attributes[j]]));
            j := j + 1;
          }
          assert attributes[..j] == attributes;
          ExtractIdFromJsx(element.children);
          AppendAssoc(before, AttributeSelectors(IdKind, attributes), JsxSelectors(IdKind, element.children));
        }
        assert children[..i + 1] == children[..i] + [element];
        JsxSelectorsConcat(IdKind, children[..i], [element]);
        JsxSelectorsSingle(IdKind, element);
        AppendAssoc(old(ids), JsxSelectors(IdKind, children[..i]), JsxSelectors(IdKind, [element]));
        i := i + 1;
      }
      assert children[..i] == children;
    }
  }

  /** `createExtractor`: a fresh extractor with empty accumulators. */
  method CreateExtractor(filetype: Filetype) returns (e: ExtractorImpl)
    ensures fresh(e)
    ensures e.filetype == filetype && e.classNames == [] && e.ids == []
  {
    e := new ExtractorImpl(filetype);
  }

  /** Accumulators are never reset: on one extractor, a second
      `extractClassName` returns the first call's selectors followed by the
      second's, and neither call touches the ids. */
  method ExtractClassNameTwice(filetype: Filetype, parsers: Parsers, first: string, second: string)
    returns (r1: seq<string>, r2: seq<string>, idsAfter: seq<string>)
    ensures r1 == Extracted(ClassKind, filetype, parsers, first)
    ensures r2 == r1 + Extracted(ClassKind, filetype, parsers, second)
    ensures idsAfter == []
  {
    var extractor := CreateExtractor(filetype);
    r1 := extractor.ExtractClassName(first, parsers);
    r2 := extractor.ExtractClassName(second, parsers);
    idsAfter := extractor.ids;
  }

  /** The same for `extractId`, which never touches the class names. */
  method ExtractIdTwice(filetype: Filetype, parsers: Parsers, first: string, second: string)
    returns (r1: seq<string>, r2: seq<string>, classNamesAfter: seq<string>)
    ensures r1 == Extracted(IdKind, filetype, parsers, first)
    ensures r2 == r1 + Extracted(IdKind, filetype, parsers, second)
    ensures classNamesAfter == []
  {
    var extractor := CreateExtractor(filetype);
    r1 := extractor.ExtractId(first, parsers);
    r2 := extractor.ExtractId(second, parsers);
    classNamesAfter := extractor.classNames;
  }

  /** Two freshly created extractors give the same class selectors for the same text. */
  method FreshExtractorsAgree(filetype: Filetype, parsers: Parsers, contents: string)
    returns (r1: seq<string>, r2: seq<string>)
    ensures r1 == r2 == Extracted(ClassKind, filetype, parsers, contents)
  {
    var a := CreateExtractor(filetype);
    var b := CreateExtractor(filetype);
    r1 := a.ExtractClassName(contents, parsers);
    r2 := b.ExtractClassName(contents, parsers);
  }
}
