/** The syntax tree of src/jlox/expr.ts and src/jlox/stmt.ts, widened to
    every node kind the parser, resolver and interpreter construct or match
    on. Nodes the resolver keys its side table by (variables, assignments,
    `this`) carry an integer `id` in place of object identity. */
module Ast {
  import opened Basics
  import opened Tokens

  /** A literal's value: `null`, a boolean, a number or a string. */
  datatype LitValue = LNil | LBool(b: bool) | LNum(n: real) | LStr(s: string)

  datatype Expr =
    | Literal(lit: LitValue)
    | Tag(key: string)
    | Grouping(expression: Expr)
    | Unary(operator: Token, right: Expr)
    | Binary(left: Expr, operator: Token, right: Expr)
    | Logical(left: Expr, operator: Token, right: Expr)
    | Ternary(condition: Expr, leftExpr: Expr, rightExpr: Expr)
      /** `value` is the leftmost operand, `right` the rest of the list. */
    | Comma(value: Expr, right: Expr)
    | Variable(name: Token, id: nat)
    | Assign(name: Token, value: Expr, id: nat)
    | Call(callee: Expr, paren: Token, args: seq<Expr>)
    | Get(obj: Expr, name: Token)
    | Set(obj: Expr, name: Token, value: Expr)
    | This(keyword: Token, id: nat)
    | Super(keyword: Token, methodName: Token)
    | FunctionExpr(decl: FunDecl)

  /** A function's name, parameters and body; an anonymous function has an
      empty name lexeme. */
  datatype FunDecl = FunDecl(name: Token, params: seq<Token>, body: seq<Stmt>)

  datatype Stmt =
    | Expression(expression: Expr)
    | Print(expression: Expr)
    | Var(name: Token, initializer: Option<Expr>)
    | Block(statements: seq<Stmt>)
    | If(condition: Expr, thenBranch: Stmt, elseBranch: Option<Stmt>)
    | While(condition: Expr, body: Stmt)
    | Break
    | FunctionStmt(decl: FunDecl)
    | Return(keyword: Token, value: Option<Expr>)
    | Class(name: Token, superclass: Option<Expr>, methods: seq<FunDecl>)
      /** The `null` the parser leaves in place of a declaration that failed
          to parse. */
    | NullStmt

}
