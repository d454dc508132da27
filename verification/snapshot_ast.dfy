/** The expression tree of the older, expression-only snapshot in
    src/pages/jlox/expr.ts: literals, groupings, unary, binary and ternary
    nodes, nothing else. `ToMain` embeds it in the main tree, which has a
    node of the same shape for each of these. */
module SnapshotAst {
  import opened Tokens
  import opened Ast

  datatype SExpr =
    | SLiteral(lit: LitValue)
    | SGrouping(expression: SExpr)
    | SUnary(operator: Token, right: SExpr)
    | SBinary(left: SExpr, operator: Token, right: SExpr)
    | STernary(condition: SExpr, leftExpr: SExpr, rightExpr: SExpr)

  /** The main tree with the same nodes. */
  function ToMain(e: SExpr): (m: Expr)
    ensures e.SLiteral? <==> m.Literal?
    ensures e.SGrouping? <==> m.Grouping?
    ensures e.SUnary? <==> m.Unary?
    ensures e.SBinary? <==> m.Binary?
    ensures e.STernary? <==> m.Ternary?
  {
    match e
    case SLiteral(v) => Literal(v)
    case SGrouping(inner) => Grouping(ToMain(inner))
    case SUnary(op, r) => Unary(op, ToMain(r))
    case SBinary(l, op, r) => Binary(ToMain(l), op, ToMain(r))
    case STernary(c, a, b) => Ternary(ToMain(c), ToMain(a), ToMain(b))
  }

  /** The embedding loses nothing: distinct snapshot trees stay distinct. */
  lemma {:induction false} ToMainInjective(a: SExpr, b: SExpr)
    requires ToMain(a) == ToMain(b)
    ensures a == b
  {
    match a
    case SLiteral(_) =>
    case SGrouping(x) => ToMainInjective(x, b.expression);
    case SUnary(_, x) => ToMainInjective(x, b.right);
    case SBinary(l, _, r) =>
      ToMainInjective(l, b.left);
      ToMainInjective(r, b.right);
    case STernary(c, x, y) =>
      ToMainInjective(c, b.condition);
      ToMainInjective(x, b.leftExpr);
      ToMainInjective(y, b.rightExpr);
  }
}
