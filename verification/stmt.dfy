/**
 * Statement nodes (src/Core/Stmt.cs). The nine visitor methods become the nine
 * constructors; the fields the source may leave `null` (an `if` without `else`, a `var`
 * without initializer, a bare `return`, a class without superclass) are `Option`s.
 */
module Stmts {
  import opened Common
  import opened Tokens
  import opened Exprs

  /** The payload of a `Function` statement, also used for a class's methods. */
  datatype FunctionDecl = FunctionDecl(name: Token, params: seq<Token>, body: seq<Stmt>)

  datatype Stmt =
    | Block(statements: seq<Stmt>)
    | Class(name: Token, superclass: Option<Expr>, methods: seq<FunctionDecl>)
    | Expression(expression: Expr)
    | Function(decl: FunctionDecl)
    | If(condition: Expr, thenBranch: Stmt, elseBranch: Option<Stmt>)
    | Print(expression: Expr)
    | Return(keyword: Token, value: Option<Expr>)
    | Var(name: Token, initializer: Option<Expr>)
    | While(condition: Expr, body: Stmt)
}
