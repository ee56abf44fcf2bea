/** The component adapter of src/extractor.ts (the `jsx` branches of
    `extractClassName` and `extractId`): which JSX elements of a module are
    the roots of the walk. */
module Components {
  import opened Estree
  import opened Utils

  /** `body.map(value => isReturnStatement(value) && isJSXElement(value.argument) ...)`:
      the JSX elements returned directly by a function body, in body order. */
  function ReturnedJsx(body: seq<Statement>): seq<Expression>
  {
    if body == [] then [] else ReturnedBy(body[0]) + ReturnedJsx(body[1..])
  }

  /** What one statement of a function body contributes: the element of a
      `return <JSXElement>`, and nothing otherwise. */
  function ReturnedBy(value: Statement): seq<Expression>
  {
    if IsReturnStatement(value) && IsJSXElement(value.argument) then [value.argument.value] else []
  }

  /** The roots of the walk: for each top-level `export function` of the
      module, in module order, the JSX elements its body returns directly. */
  function JsxRoots(moduleBody: seq<Statement>): seq<Expression>
  {
    if moduleBody == [] then [] else RootsOf(moduleBody[0]) + JsxRoots(moduleBody[1..])
  }

  /** What one top-level statement contributes: the elements returned by the
      body of an exported function declaration, and nothing otherwise. */
  function RootsOf(value: Statement): seq<Expression>
  {
    if IsExportNamedDeclaration(value) && IsFunctionDeclaration(value.declaration)
    then ReturnedJsx(value.declaration.value.body)
    else []
  }

  /** A top-level statement `export function f() { ... return e; ... }` with
      `e` a JSX element and the return directly in the function's body. */
  predicate ExportedFunctionReturns(s: Statement, e: Expression)
  {
    && s.ExportNamedDeclaration?
    && s.declaration.Some?
    && s.declaration.value.FunctionDeclaration?
    && e.JSXElement?
    && ReturnStatement(Some(e)) in s.declaration.value.body
  }

  lemma {:induction false} ReturnedJsxConcat(a: seq<Statement>, b: seq<Statement>)
    ensures ReturnedJsx(a + b) == ReturnedJsx(a) + ReturnedJsx(b)
    decreases |a|
  {
    if a == [] {
      assert a + b == b;
    } else {
      assert (a + b)[0] == a[0];
      assert (a + b)[1..] == a[1..] + b;
      ReturnedJsxConcat(a[1..], b);
    }
  }

  /** Roots are taken in module order: those of two runs of top-level
      statements are those of the first run followed by those of the second. */
  lemma {:induction false} JsxRootsConcat(a: seq<Statement>, b: seq<Statement>)
    ensures JsxRoots(a + b) == JsxRoots(a) + JsxRoots(b)
    decreases |a|
  {
    if a == [] {
      assert a + b == b;
    } else {
      assert (a + b)[0] == a[0];
      assert (a + b)[1..] == a[1..] + b;
      JsxRootsConcat(a[1..], b);
    }
  }

  /** One more statement of a function body: the roots grow by the element it
      returns, if it is `return <JSXElement>`. */
  lemma ReturnedJsxStep(body: seq<Statement>, j: nat)
    requires j < |body|
    ensures ReturnedJsx(body[..j + 1]) == ReturnedJsx(body[..j]) + ReturnedBy(body[j])
  {
    assert body[..j + 1] == body[..j] + [body[j]];
    ReturnedJsxConcat(body[..j], [body[j]]);
    assert [body[j]][1..] == [];
  }

  /** One more top-level statement: the roots grow by those of the function
      it exports, if it is `export function`. */
  lemma JsxRootsStep(moduleBody: seq<Statement>, i: nat)
    requires i < |moduleBody|
    ensures JsxRoots(moduleBody[..i + 1]) == JsxRoots(moduleBody[..i]) + RootsOf(moduleBody[i])
  {
    assert moduleBody[..i + 1] == moduleBody[..i] + [moduleBody[i]];
    JsxRootsConcat(moduleBody[..i], [moduleBody[i]]);
    assert [moduleBody[i]][1..] == [];
  }

  /** An element is returned by a body exactly when the body holds `return e`
      and `e` is a JSX element. */
  lemma {:induction false} ReturnedJsxExactly(body: seq<Statement>, e: Expression)
    ensures e in ReturnedJsx(body) <==> e.JSXElement? && ReturnStatement(Some(e)) in body
    decreases |body|
  {
    if body != [] {
      ReturnedJsxExactly(body[1..], e);
      assert body == [body[0]] + body[1..];
    }
  }

  /** An element is a root exactly when some top-level statement is an
      exported function declaration that returns it directly. Anything else
      (a default export, an unexported function, a return nested in a block,
      a returned non-element) contributes no root. */
  lemma {:induction false} JsxRootsExactly(moduleBody: seq<Statement>, e: Expression)
    ensures e in JsxRoots(moduleBody)
        <==> exists i :: 0 <= i < |moduleBody| && ExportedFunctionReturns(moduleBody[i], e)
    decreases |moduleBody|
  {
    if moduleBody != [] {
      JsxRootsExactly(moduleBody[1..], e);
      if moduleBody[0].ExportNamedDeclaration? && moduleBody[0].declaration.Some? && moduleBody[0].declaration.value.FunctionDeclaration? {
        ReturnedJsxExactly(moduleBody[0].declaration.value.body, e);
      }
      if exists i :: 0 <= i < |moduleBody[1..]| && ExportedFunctionReturns(moduleBody[1..][i], e) {
        var i :| 0 <= i < |moduleBody[1..]| && ExportedFunctionReturns(moduleBody[1..][i], e);
        assert ExportedFunctionReturns(moduleBody[i + 1], e);
      }
      if exists i :: 0 <= i < |moduleBody| && ExportedFunctionReturns(moduleBody[i], e) {
        var i :| 0 <= i < |moduleBody| && ExportedFunctionReturns(moduleBody[i], e);
        if i > 0 {
          assert ExportedFunctionReturns(moduleBody[1..][i - 1], e);
        }
      }
    }
  }
}
