/** The parenthesised printer of src/jlox/visitors/ast-printer.ts. Each
    visitor builds one `Trees.Tree`: `parenthesize` nodes for binary,
    ternary, grouping and unary expressions, an atom for a literal or a
    tag, and the empty atom for every node kind whose visitor is still a
    stub returning ''. `print` renders that tree. The tag data source is
    the host function `tagText`. */
module AstPrinter {
  import opened Basics
  import opened Tokens
  import opened Ast
  import opened Values
  import opened Trees
  import Interpreter

  /** `visitLiteralExpr`: "nil" for `null`, otherwise the value's
      `toString()`. */
  function LiteralText(v: LitValue, numText: real -> string): (s: string)
    ensures v.LNil? ==> s == "nil"
    ensures v.LBool? ==> s == (if v.b then "true" else "false")
    ensures v.LNum? ==> s == numText(v.n)
    ensures v.LStr? ==> s == v.s
  {
    Stringify(Interpreter.LitToValue(v), numText)
  }

  /** The tree the visitors build. */
  function PrintTree(e: Expr, numText: real -> string, tagText: string -> string): Tree
    decreases e
  {
    match e
    case Binary(l, op, r) => Node(op.lexeme, [PrintTree(l, numText, tagText), PrintTree(r, numText, tagText)])
    case Ternary(c, a, b) =>
      Node("?", [PrintTree(c, numText, tagText), PrintTree(a, numText, tagText), PrintTree(b, numText, tagText)])
    case Grouping(inner) => Node("group", [PrintTree(inner, numText, tagText)])
    case Literal(v) => Atom(LiteralText(v, numText))
    case Tag(key) => Atom(tagText(key))
    case Unary(op, r) => Node(op.lexeme, [PrintTree(r, numText, tagText)])
    case _ => Atom("")
  }

  /** `print`: each visitor as written, `parenthesize` over the printed
      operands for binary, ternary, grouping and unary nodes. */
  function Print(e: Expr, numText: real -> string, tagText: string -> string): (p: string)
    ensures e.Binary? || e.Ternary? || e.Grouping? || e.Unary? ==> |p| >= 2 && p[0] == '(' && p[|p| - 1] == ')'
    ensures e.Literal? ==> p == LiteralText(e.lit, numText)
    ensures e.Tag? ==> p == tagText(e.key)
    ensures (e.Variable? || e.Assign? || e.Comma? || e.Logical? || e.Call? || e.FunctionExpr?
             || e.Get? || e.Set? || e.This? || e.Super?) ==> p == ""
    decreases e
  {
    match e
    case Binary(l, op, r) => Parenthesize(op.lexeme, [Print(l, numText, tagText), Print(r, numText, tagText)])
    case Ternary(c, a, b) =>
      Parenthesize("?", [Print(c, numText, tagText), Print(a, numText, tagText), Print(b, numText, tagText)])
    case Grouping(inner) => Parenthesize("group", [Print(inner, numText, tagText)])
    case Literal(v) => LiteralText(v, numText)
    case Tag(key) => tagText(key)
    case Unary(op, r) => Parenthesize(op.lexeme, [Print(r, numText, tagText)])
    case _ => ""
  }

  /** `visitBinaryExpr`: `(op left right)`. */
  lemma PrintBinary(l: Expr, op: Token, r: Expr, numText: real -> string, tagText: string -> string)
    ensures Print(Binary(l, op, r), numText, tagText) ==
      "(" + op.lexeme + " " + Print(l, numText, tagText) + " " + Print(r, numText, tagText) + ")"
  {
    ParenthesizeTwo(op.lexeme, Print(l, numText, tagText), Print(r, numText, tagText));
  }

  /** `visitTernaryExpr`: `(? condition then else)`. */
  lemma PrintTernary(c: Expr, a: Expr, b: Expr, numText: real -> string, tagText: string -> string)
    ensures Print(Ternary(c, a, b), numText, tagText) ==
      "(? " + Print(c, numText, tagText) + " " + Print(a, numText, tagText) + " " + Print(b, numText, tagText) + ")"
  {
    ParenthesizeThree("?", Print(c, numText, tagText), Print(a, numText, tagText), Print(b, numText, tagText));
    assert "(" + "?" + " " == "(? ";
  }

  /** `visitGroupingExpr`: `(group inner)`. */
  lemma PrintGrouping(inner: Expr, numText: real -> string, tagText: string -> string)
    ensures Print(Grouping(inner), numText, tagText) == "(group " + Print(inner, numText, tagText) + ")"
  {
    ParenthesizeOne("group", Print(inner, numText, tagText));
  }

  /** `visitUnaryExpr`: `(op operand)`. */
  lemma PrintUnary(op: Token, r: Expr, numText: real -> string, tagText: string -> string)
    ensures Print(Unary(op, r), numText, tagText) == "(" + op.lexeme + " " + Print(r, numText, tagText) + ")"
  {
    ParenthesizeOne(op.lexeme, Print(r, numText, tagText));
  }

  /** Printing is rendering the tree the visitors describe. */
  lemma {:induction false} PrintIsRender(e: Expr, numText: real -> string, tagText: string -> string)
    ensures Print(e, numText, tagText) == Render(PrintTree(e, numText, tagText))
    decreases e
  {
    match e
    case Binary(l, _, r) =>
      PrintIsRender(l, numText, tagText);
      PrintIsRender(r, numText, tagText);
      assert RenderAll(PrintTree(e, numText, tagText).kids) == [Print(l, numText, tagText), Print(r, numText, tagText)];
    case Ternary(c, a, b) =>
      PrintIsRender(c, numText, tagText);
      PrintIsRender(a, numText, tagText);
      PrintIsRender(b, numText, tagText);
      assert RenderAll(PrintTree(e, numText, tagText).kids)
        == [Print(c, numText, tagText), Print(a, numText, tagText), Print(b, numText, tagText)];
    case Grouping(inner) =>
      PrintIsRender(inner, numText, tagText);
      assert RenderAll(PrintTree(e, numText, tagText).kids) == [Print(inner, numText, tagText)];
    case Unary(_, r) =>
      PrintIsRender(r, numText, tagText);
      assert RenderAll(PrintTree(e, numText, tagText).kids) == [Print(r, numText, tagText)];
    case _ =>
  }

  /** The printed form determines the tree: when operator lexemes,
      literal texts and tag texts contain no spaces or parentheses,
      reading the output back gives exactly the tree the visitors built. */
  lemma PrintReadsBack(e: Expr, numText: real -> string, tagText: string -> string)
    requires Wellformed(PrintTree(e, numText, tagText))
    ensures Read(Print(e, numText, tagText)) == Some(PrintTree(e, numText, tagText))
  {
    PrintIsRender(e, numText, tagText);
    ReadsBack(PrintTree(e, numText, tagText));
  }

  /** The example of the book's printer: `-123 * (45.67)` prints as
      `(* (- 123) (group 45.67))`. */
  lemma BookExample(minus: Token, star: Token, numText: real -> string, tagText: string -> string)
    requires minus.lexeme == "-" && star.lexeme == "*"
    requires numText(123.0) == "123" && numText(45.67) == "45.67"
    ensures Print(Binary(Unary(minus, Literal(LNum(123.0))), star, Grouping(Literal(LNum(45.67)))), numText, tagText)
      == "(* (- 123) (group 45.67))"
  {
    var left := Unary(minus, Literal(LNum(123.0)));
    var right := Grouping(Literal(LNum(45.67)));
    NegatedExample(minus, numText, tagText);
    GroupedExample(numText, tagText);
    PrintBinary(left, star, right, numText, tagText);
    BookText(Print(left, numText, tagText), Print(right, numText, tagText));
  }

  lemma BookText(x: string, y: string)
    requires x == "(- 123)" && y == "(group 45.67)"
    ensures "(" + "*" + " " + x + " " + y + ")" == "(* (- 123) (group 45.67))"
  {
  }

  lemma NegatedExample(minus: Token, numText: real -> string, tagText: string -> string)
    requires minus.lexeme == "-" && numText(123.0) == "123"
    ensures Print(Unary(minus, Literal(LNum(123.0))), numText, tagText) == "(- 123)"
  {
    PrintUnary(minus, Literal(LNum(123.0)), numText, tagText);
  }

  lemma GroupedExample(numText: real -> string, tagText: string -> string)
    requires numText(45.67) == "45.67"
    ensures Print(Grouping(Literal(LNum(45.67))), numText, tagText) == "(group 45.67)"
  {
    PrintGrouping(Literal(LNum(45.67)), numText, tagText);
  }
}
