/** The part of the ESTree syntax tree (as esprima builds it with its JSX
    extension) that the component adapter and the JSX walkers look at. Every
    node kind the extractor tests for has its own constructor; every other
    kind keeps only its `type` tag, which can never be one of the tested ones. */
module Estree {

  /** A possibly missing child node: JavaScript's `null` / `undefined`. */
  datatype Option<+T> = None | Some(value: T)

  type OtherStatementType = t: string | t != "ExportNamedDeclaration" && t != "ReturnStatement"
    witness "ExpressionStatement"

  type OtherDeclarationType = t: string | t != "FunctionDeclaration"
    witness "VariableDeclaration"

  type OtherExpressionType = t: string | t != "JSXElement"
    witness "JSXText"

  /** One attribute of a JSX opening element, with a string-literal value. */
  datatype JsxAttribute = JsxAttribute(name: string, value: string)

  /** An expression, or a child of a JSX element. `attributes` are those of the
      element's opening tag, in source order. */
  datatype Expression =
    | JSXElement(attributes: seq<JsxAttribute>, children: seq<Expression>)
    | OtherExpression(nodeType: OtherExpressionType)
  {
    /** The node's `type` tag. */
    function Type(): string
    {
      match this
      case JSXElement(_, _) => "JSXElement"
      case OtherExpression(t) => t
    }
  }

  /** A declaration. `body` is the statement list of a function's block. */
  datatype Declaration =
    | FunctionDeclaration(body: seq<Statement>)
    | OtherDeclaration(nodeType: OtherDeclarationType)
  {
    /** The node's `type` tag. */
    function Type(): string
    {
      match this
      case FunctionDeclaration(_) => "FunctionDeclaration"
      case OtherDeclaration(t) => t
    }
  }

  /** A statement, directive or module declaration. `declaration` is absent
      for `export { a, b }`; `argument` is absent for a bare `return`. */
  datatype Statement =
    | ExportNamedDeclaration(declaration: Option<Declaration>)
    | ReturnStatement(argument: Option<Expression>)
    | OtherStatement(nodeType: OtherStatementType)
  {
    /** The node's `type` tag. */
    function Type(): string
    {
      match this
      case ExportNamedDeclaration(_) => "ExportNamedDeclaration"
      case ReturnStatement(_) => "ReturnStatement"
      case OtherStatement(t) => t
    }
  }

  /** The value `esprima.parseModule` returns: the module's top-level items. */
  datatype Program = Program(body: seq<Statement>)
}
