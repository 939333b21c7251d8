/**
 The SQL-building collaborators the ltree operators hand their results to,
 kept abstract: expression terms are built but never rendered, and a typed
 attribute is only its result-type tag plus the expression it carries.
 */
module Sql {

  /** An SQL expression term. `Ident` stands for any expression a caller
      passes in (typically a qualified column) and is never looked into;
      `Literal` is a Ruby string the SQL builder will quote; `Boolean` and
      `Str` are a Sequel boolean or string expression with its operator
      symbol and its arguments in order. */
  datatype Expr =
    | Ident(name: string)
    | Literal(text: string)
    | Boolean(op: string, args: seq<Expr>)
    | Str(op: string, args: seq<Expr>)

  /** The result types the two ltree operators are tagged with. */
  datatype SqlType = Bool | LTree

  /** An attribute of the given result type whose SQL is `sqlExpr`. */
  datatype Attribute = Attribute(ty: SqlType, sqlExpr: Expr)

  /** The declared result type agrees with the kind of expression carried:
      a boolean attribute carries a boolean expression and a path-valued
      one carries a string expression. */
  predicate WellTagged(a: Attribute) {
    && (a.ty == Bool <==> a.sqlExpr.Boolean?)
    && (a.ty == LTree <==> a.sqlExpr.Str?)
  }

  /** The operands of an operator term, left to right. */
  function Operands(e: Expr): seq<Expr> {
    match e
    case Boolean(_, args) => args
    case Str(_, args) => args
    case _ => []
  }
}
