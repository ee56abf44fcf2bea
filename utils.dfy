/** The node and attribute predicates of src/utils.ts. Each compares a node's
    `type` tag or an attribute's name with a string; the contracts say which
    constructor of the syntax tree that singles out. */
module Utils {
  import opened Estree

  function IsExportNamedDeclaration(declaration: Statement): (r: bool)
    ensures r <==> declaration.ExportNamedDeclaration?
  {
    declaration.Type() == "ExportNamedDeclaration"
  }

  /** `declaration?.type === 'FunctionDeclaration'`: a missing declaration is not one. */
  function IsFunctionDeclaration(declaration: Option<Declaration>): (r: bool)
    ensures declaration.None? ==> !r
    ensures r <==> declaration.Some? && declaration.value.FunctionDeclaration?
  {
    declaration.Some? && declaration.value.Type() == "FunctionDeclaration"
  }

  /** `expression?.type === 'JSXElement'`: a missing expression is not one. */
  function IsJSXElement(expression: Option<Expression>): (r: bool)
    ensures expression.None? ==> !r
    ensures r <==> expression.Some? && expression.value.JSXElement?
  {
    expression.Some? && expression.value.Type() == "JSXElement"
  }

  function IsReturnStatement(statement: Statement): (r: bool)
    ensures r <==> statement.ReturnStatement?
  {
    statement.Type() == "ReturnStatement"
  }

  /** Both spellings React and plain JSX use for the class attribute. */
  predicate IsClassName(attr: JsxAttribute)
  {
    attr.name == "className" || attr.name == "class"
  }

  function IsId(attr: JsxAttribute): (r: bool)
    ensures r ==> !IsClassName(attr)
  {
    attr.name == "id"
  }
}
