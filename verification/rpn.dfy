/** The postfix generator of src/jlox/visitors/rpn-generator.ts. Each
    visitor calls `computeValue(value, ...operands)`, which concatenates
    the operands' outputs and then the value, with no separators. The
    class has no visitor for `get`, `set`, `this` or `super` nodes, so
    reaching one makes `getRPN` throw a TypeError; that is `None` here.

    Since nothing separates the pieces, the string alone does not
    determine the tree. `Items` keeps the piece boundaries: its texts
    concatenate to the output (`RpnIsItemsText`), and a stack machine run
    over it rebuilds the expression's shape (`ItemsRebuildShape`), so the
    output lists the operands and operators in postfix order. */
module RpnGenerator {
  import opened Basics
  import opened Tokens
  import opened Ast
  import opened Trees
  import AstPrinter

  /** `'' + value` for a literal: "null" for nil, otherwise the same text
      the printer shows. */
  function LiteralText(v: LitValue, numText: real -> string): (s: string)
    ensures v.LNil? ==> s == "null"
    ensures !v.LNil? ==> s == AstPrinter.LiteralText(v, numText)
  {
    if v.LNil? then "null" else AstPrinter.LiteralText(v, numText)
  }

  /** A node without a visitor, reached through the nodes `getRPN`
      descends into. */
  predicate Throws(e: Expr)
    decreases e
  {
    match e
    case Get(_, _) => true
    case Set(_, _, _) => true
    case This(_, _) => true
    case Super(_, _) => true
    case Binary(l, _, r) => Throws(l) || Throws(r)
    case Ternary(c, a, b) => Throws(c) || Throws(a) || Throws(b)
    case Grouping(inner) => Throws(inner)
    case Unary(_, r) => Throws(r)
    case _ => false
  }

  /** `computeValue(value, ...exprs)` over the operands' outputs: their
      concatenation followed by `value`, or the throw of the first operand
      that throws. */
  function ComputeValue(value: string, outputs: seq<Option<string>>): (r: Option<string>)
    ensures r.None? <==> None in outputs
    ensures |outputs| == 0 ==> r == Some(value)
  {
    if |outputs| == 0 then Some(value)
    else
      match outputs[0]
      case None => None
      case Some(x) =>
        var r := ComputeValue(value, outputs[1..]);
        assert outputs == [outputs[0]] + outputs[1..];
        if r.None? then None else Some(x + r.value)
  }

  /** `getRPN`. */
  function Rpn(e: Expr, numText: real -> string): (r: Option<string>)
    ensures r.None? <==> Throws(e)
    ensures e.Literal? ==> r == Some(LiteralText(e.lit, numText))
    ensures e.Tag? || e.Variable? || e.Assign? || e.Comma? || e.Logical? || e.Call? || e.FunctionExpr? ==> r == Some("")
    decreases e
  {
    match e
    case Binary(l, op, r) => ComputeValue(op.lexeme, [Rpn(l, numText), Rpn(r, numText)])
    case Ternary(c, a, b) => ComputeValue("?", [Rpn(c, numText), Rpn(a, numText), Rpn(b, numText)])
    case Grouping(inner) => ComputeValue("", [Rpn(inner, numText)])
    case Literal(v) => ComputeValue(LiteralText(v, numText), [])
    case Unary(op, r) => ComputeValue(op.lexeme, [Rpn(r, numText)])
    case Get(_, _) => None
    case Set(_, _, _) => None
    case This(_, _) => None
    case Super(_, _) => None
    case _ => Some("")
  }

  // ---------------------------------------------------------------------
  // Output formats

  lemma ComputeOne(value: string, a: string)
    ensures ComputeValue(value, [Some(a)]) == Some(a + value)
  {
    var outs: seq<Option<string>> := [Some(a)];
    assert outs[1..] == [];
    assert ComputeValue(value, outs[1..]) == Some(value);
  }

  lemma ComputeTwo(value: string, a: string, b: string)
    ensures ComputeValue(value, [Some(a), Some(b)]) == Some(a + b + value)
  {
    assert [Some(a), Some(b)][1..] == [Some(b)];
    ComputeOne(value, b);
    assert a + (b + value) == a + b + value;
  }

  lemma ComputeThree(value: string, a: string, b: string, c: string)
    ensures ComputeValue(value, [Some(a), Some(b), Some(c)]) == Some(a + b + c + value)
  {
    assert [Some(a), Some(b), Some(c)][1..] == [Some(b), Some(c)];
    ComputeTwo(value, b, c);
    assert a + (b + c + value) == a + b + c + value;
  }

  /** `visitBinaryExpr`: left, right, operator. */
  lemma RpnBinary(l: Expr, op: Token, r: Expr, numText: real -> string)
    requires !Throws(l) && !Throws(r)
    ensures Rpn(Binary(l, op, r), numText) == Some(Rpn(l, numText).value + Rpn(r, numText).value + op.lexeme)
  {
    ComputeTwo(op.lexeme, Rpn(l, numText).value, Rpn(r, numText).value);
  }

  /** `visitTernaryExpr`: condition, then-branch, else-branch, "?". */
  lemma RpnTernary(c: Expr, a: Expr, b: Expr, numText: real -> string)
    requires !Throws(c) && !Throws(a) && !Throws(b)
    ensures Rpn(Ternary(c, a, b), numText) ==
      Some(Rpn(c, numText).value + Rpn(a, numText).value + Rpn(b, numText).value + "?")
  {
    ComputeThree("?", Rpn(c, numText).value, Rpn(a, numText).value, Rpn(b, numText).value);
  }

  /** `visitUnaryExpr`: operand, operator. */
  lemma RpnUnary(op: Token, r: Expr, numText: real -> string)
    requires !Throws(r)
    ensures Rpn(Unary(op, r), numText) == Some(Rpn(r, numText).value + op.lexeme)
  {
    ComputeOne(op.lexeme, Rpn(r, numText).value);
  }

  /** `visitGroupingExpr`: a grouping adds nothing to its operand's output,
      throw included. */
  lemma RpnGrouping(inner: Expr, numText: real -> string)
    ensures Rpn(Grouping(inner), numText) == Rpn(inner, numText)
  {
    if !Throws(inner) {
      ComputeOne("", Rpn(inner, numText).value);
      assert Rpn(inner, numText).value + "" == Rpn(inner, numText).value;
    }
  }

  // ---------------------------------------------------------------------
  // The output in pieces, and the shape it encodes

  /** One piece of the output: an operand's text, or an operator's text
      together with the number of operands it takes. */
  datatype Item = Operand(text: string) | Operator(text: string, arity: nat)

  /** The pieces in the order `computeValue` emits them; a grouping emits
      only its operand's pieces (its value is the empty string), and a
      stub visitor emits one empty operand. */
  function Items(e: Expr, numText: real -> string): seq<Item>
    requires !Throws(e)
    decreases e
  {
    match e
    case Binary(l, op, r) => Items(l, numText) + Items(r, numText) + [Operator(op.lexeme, 2)]
    case Ternary(c, a, b) => Items(c, numText) + Items(a, numText) + Items(b, numText) + [Operator("?", 3)]
    case Grouping(inner) => Items(inner, numText)
    case Literal(v) => [Operand(LiteralText(v, numText))]
    case Unary(op, r) => Items(r, numText) + [Operator(op.lexeme, 1)]
    case _ => [Operand("")]
  }

  function Text(items: seq<Item>): string {
    if |items| == 0 then "" else items[0].text + Text(items[1..])
  }

  lemma TextOne(x: Item)
    ensures Text([x]) == x.text
  {
    assert [x][1..] == [];
    assert x.text + "" == x.text;
  }

  lemma Regroup(a: seq<Item>, b: seq<Item>, c: seq<Item>, d: seq<Item>)
    ensures a + b + c + d == a + (b + (c + d))
  {
  }

  lemma Join(a: seq<Item>, b: seq<Item>, c: seq<Item>)
    ensures a + b + c == a + (b + c)
  {
  }

  lemma PushTwo(stack: seq<Tree>, x: Tree, y: Tree)
    ensures stack + [x] + [y] == stack + [x, y]
  {
  }

  lemma PushThree(stack: seq<Tree>, x: Tree, y: Tree, z: Tree)
    ensures stack + [x] + [y] + [z] == stack + [x, y, z]
  {
  }

  lemma {:induction false} TextAppend(a: seq<Item>, b: seq<Item>)
    ensures Text(a + b) == Text(a) + Text(b)
    decreases |a|
  {
    if |a| > 0 {
      assert (a + b)[1..] == a[1..] + b;
      TextAppend(a[1..], b);
    } else {
      assert a + b == b;
    }
  }

  /** The generator's output is the concatenation of the pieces. */
  lemma {:induction false} RpnIsItemsText(e: Expr, numText: real -> string)
    requires !Throws(e)
    ensures Rpn(e, numText) == Some(Text(Items(e, numText)))
    decreases e
  {
    match e
    case Binary(l, op, r) =>
      RpnIsItemsText(l, numText);
      RpnIsItemsText(r, numText);
      RpnBinary(l, op, r, numText);
      TextAppend(Items(l, numText) + Items(r, numText), [Operator(op.lexeme, 2)]);
      TextAppend(Items(l, numText), Items(r, numText));
      TextOne(Operator(op.lexeme, 2));
    case Ternary(c, a, b) =>
      RpnIsItemsText(c, numText);
      RpnIsItemsText(a, numText);
      RpnIsItemsText(b, numText);
      RpnTernary(c, a, b, numText);
      TextAppend(Items(c, numText) + Items(a, numText) + Items(b, numText), [Operator("?", 3)]);
      TextAppend(Items(c, numText) + Items(a, numText), Items(b, numText));
      TextAppend(Items(c, numText), Items(a, numText));
      TextOne(Operator("?", 3));
    case Grouping(inner) =>
      RpnIsItemsText(inner, numText);
      RpnGrouping(inner, numText);
    case Unary(op, r) =>
      RpnIsItemsText(r, numText);
      RpnUnary(op, r, numText);
      TextAppend(Items(r, numText), [Operator(op.lexeme, 1)]);
      TextOne(Operator(op.lexeme, 1));
    case Literal(v) =>
      TextOne(Operand(LiteralText(v, numText)));
    case _ =>
      TextOne(Operand(""));
  }

  /** Postfix reading with a stack of trees: an operand pushes an atom; an
      operator of arity n pops n trees and pushes a node over them. */
  function Run(items: seq<Item>, stack: seq<Tree>): Option<seq<Tree>>
    decreases |items|
  {
    if |items| == 0 then Some(stack)
    else
      match items[0]
      case Operand(x) => Run(items[1..], stack + [Atom(x)])
      case Operator(x, n) =>
        if n > |stack| then None
        else Run(items[1..], stack[..|stack| - n] + [Node(x, stack[|stack| - n..])])
  }

  /** The expression's shape as the output sees it: groupings erased, an
      operator node over its operands, and the stub visitors' empty text. */
  function Shape(e: Expr, numText: real -> string): Tree
    decreases e
  {
    match e
    case Binary(l, op, r) => Node(op.lexeme, [Shape(l, numText), Shape(r, numText)])
    case Ternary(c, a, b) => Node("?", [Shape(c, numText), Shape(a, numText), Shape(b, numText)])
    case Grouping(inner) => Shape(inner, numText)
    case Literal(v) => Atom(LiteralText(v, numText))
    case Unary(op, r) => Node(op.lexeme, [Shape(r, numText)])
    case _ => Atom("")
  }

  lemma OperandStep(x: string, rest: seq<Item>, stack: seq<Tree>)
    ensures Run([Operand(x)] + rest, stack) == Run(rest, stack + [Atom(x)])
  {
    assert ([Operand(x)] + rest)[1..] == rest;
  }

  /** An operator over exactly its operands on top of the stack. */
  lemma OperatorStep(x: string, kids: seq<Tree>, rest: seq<Item>, stack: seq<Tree>)
    ensures Run([Operator(x, |kids|)] + rest, stack + kids) == Run(rest, stack + [Node(x, kids)])
  {
    var s := stack + kids;
    assert ([Operator(x, |kids|)] + rest)[1..] == rest;
    assert s[..|s| - |kids|] == stack && s[|s| - |kids|..] == kids;
  }

  /** Running the pieces of `e` pushes exactly the shape of `e`. */
  lemma {:induction false} ItemsRebuildShape(e: Expr, numText: real -> string, rest: seq<Item>, stack: seq<Tree>)
    requires !Throws(e)
    ensures Run(Items(e, numText) + rest, stack) == Run(rest, stack + [Shape(e, numText)])
    decreases e
  {
    match e
    case Binary(l, op, r) =>
      var tail := [Operator(op.lexeme, 2)] + rest;
      ItemsRebuildShape(l, numText, Items(r, numText) + tail, stack);
      ItemsRebuildShape(r, numText, tail, stack + [Shape(l, numText)]);
      BinaryStep(e, numText, rest, stack);
    case Ternary(c, a, b) =>
      var tail := [Operator("?", 3)] + rest;
      ItemsRebuildShape(c, numText, Items(a, numText) + (Items(b, numText) + tail), stack);
      ItemsRebuildShape(a, numText, Items(b, numText) + tail, stack + [Shape(c, numText)]);
      ItemsRebuildShape(b, numText, tail, stack + [Shape(c, numText)] + [Shape(a, numText)]);
      TernaryStep(e, numText, rest, stack);
    case Grouping(inner) =>
      ItemsRebuildShape(inner, numText, rest, stack);
    case Unary(op, r) =>
      var tail := [Operator(op.lexeme, 1)] + rest;
      ItemsRebuildShape(r, numText, tail, stack);
      UnaryStep(e, numText, rest, stack);
    case Literal(v) =>
      OperandStep(LiteralText(v, numText), rest, stack);
    case _ =>
      OperandStep("", rest, stack);
  }

  lemma BinaryStep(e: Expr, numText: real -> string, rest: seq<Item>, stack: seq<Tree>)
    requires e.Binary? && !Throws(e)
    requires var tail := [Operator(e.operator.lexeme, 2)] + rest;
      && Run(Items(e.left, numText) + (Items(e.right, numText) + tail), stack)
        == Run(Items(e.right, numText) + tail, stack + [Shape(e.left, numText)])
      && Run(Items(e.right, numText) + tail, stack + [Shape(e.left, numText)])
        == Run(tail, stack + [Shape(e.left, numText)] + [Shape(e.right, numText)])
    ensures Run(Items(e, numText) + rest, stack) == Run(rest, stack + [Shape(e, numText)])
  {
    var kids := [Shape(e.left, numText), Shape(e.right, numText)];
    var tail := [Operator(e.operator.lexeme, 2)] + rest;
    Regroup(Items(e.left, numText), Items(e.right, numText), [Operator(e.operator.lexeme, 2)], rest);
    PushTwo(stack, Shape(e.left, numText), Shape(e.right, numText));
    OperatorStep(e.operator.lexeme, kids, rest, stack);
  }

  lemma TernaryStep(e: Expr, numText: real -> string, rest: seq<Item>, stack: seq<Tree>)
    requires e.Ternary? && !Throws(e)
    requires var tail := [Operator("?", 3)] + rest;
      var c, a, b := e.condition, e.leftExpr, e.rightExpr;
      && Run(Items(c, numText) + (Items(a, numText) + (Items(b, numText) + tail)), stack)
        == Run(Items(a, numText) + (Items(b, numText) + tail), stack + [Shape(c, numText)])
      && Run(Items(a, numText) + (Items(b, numText) + tail), stack + [Shape(c, numText)])
        == Run(Items(b, numText) + tail, stack + [Shape(c, numText)] + [Shape(a, numText)])
      && Run(Items(b, numText) + tail, stack + [Shape(c, numText)] + [Shape(a, numText)])
        == Run(tail, stack + [Shape(c, numText)] + [Shape(a, numText)] + [Shape(b, numText)])
    ensures Run(Items(e, numText) + rest, stack) == Run(rest, stack + [Shape(e, numText)])
  {
    var c, a, b := e.condition, e.leftExpr, e.rightExpr;
    var kids := [Shape(c, numText), Shape(a, numText), Shape(b, numText)];
    var tail := [Operator("?", 3)] + rest;
    Regroup(Items(c, numText) + Items(a, numText), Items(b, numText), [Operator("?", 3)], rest);
    Join(Items(c, numText), Items(a, numText), Items(b, numText) + tail);
    PushThree(stack, Shape(c, numText), Shape(a, numText), Shape(b, numText));
    OperatorStep("?", kids, rest, stack);
  }

  lemma UnaryStep(e: Expr, numText: real -> string, rest: seq<Item>, stack: seq<Tree>)
    requires e.Unary? && !Throws(e)
    requires var tail := [Operator(e.operator.lexeme, 1)] + rest;
      Run(Items(e.right, numText) + tail, stack) == Run(tail, stack + [Shape(e.right, numText)])
    ensures Run(Items(e, numText) + rest, stack) == Run(rest, stack + [Shape(e, numText)])
  {
    var tail := [Operator(e.operator.lexeme, 1)] + rest;
    assert Items(e, numText) + rest == Items(e.right, numText) + tail;
    OperatorStep(e.operator.lexeme, [Shape(e.right, numText)], rest, stack);
  }

  /** The output, read in postfix order with each operator taking as many
      operands as its node has, rebuilds exactly the expression's shape. */
  lemma PostfixDecodes(e: Expr, numText: real -> string)
    requires !Throws(e)
    ensures Run(Items(e, numText), []) == Some([Shape(e, numText)])
  {
    ItemsRebuildShape(e, numText, [], []);
    assert Items(e, numText) + [] == Items(e, numText);
    assert [] + [Shape(e, numText)] == [Shape(e, numText)];
  }
}
