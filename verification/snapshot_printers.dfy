/** The printer of the expression-only snapshot,
    src/pages/jlox/visitors/ast-printer.ts. Its visitors are those of the
    main printer for the five node kinds the snapshot has, so on every
    snapshot tree it prints what the main printer prints for the embedded
    tree (`PrintAgrees`), and the notation reads back the same way. */
module SnapshotPrinter {
  import opened Basics
  import opened Ast
  import opened SnapshotAst
  import opened Trees
  import AstPrinter

  /** `print`, visitor by visitor. */
  function Print(e: SExpr, numText: real -> string): (p: string)
    ensures !e.SLiteral? ==> |p| >= 2 && p[0] == '(' && p[|p| - 1] == ')'
    ensures e.SLiteral? ==> p == AstPrinter.LiteralText(e.lit, numText)
    decreases e
  {
    match e
    case SBinary(l, op, r) => Parenthesize(op.lexeme, [Print(l, numText), Print(r, numText)])
    case STernary(c, a, b) => Parenthesize("?", [Print(c, numText), Print(a, numText), Print(b, numText)])
    case SGrouping(inner) => Parenthesize("group", [Print(inner, numText)])
    case SLiteral(v) => AstPrinter.LiteralText(v, numText)
    case SUnary(op, r) => Parenthesize(op.lexeme, [Print(r, numText)])
  }

  /** The snapshot printer and the main printer agree on every snapshot
      tree, whatever the main printer's tag source. */
  lemma {:induction false} PrintAgrees(e: SExpr, numText: real -> string, tagText: string -> string)
    ensures Print(e, numText) == AstPrinter.Print(ToMain(e), numText, tagText)
    decreases e
  {
    match e
    case SBinary(l, _, r) =>
      PrintAgrees(l, numText, tagText);
      PrintAgrees(r, numText, tagText);
    case STernary(c, a, b) =>
      PrintAgrees(c, numText, tagText);
      PrintAgrees(a, numText, tagText);
      PrintAgrees(b, numText, tagText);
    case SGrouping(inner) =>
      PrintAgrees(inner, numText, tagText);
    case SUnary(_, r) =>
      PrintAgrees(r, numText, tagText);
    case SLiteral(_) =>
  }

  /** The snapshot's output reads back as the tree of the main printer's
      visitors (a snapshot tree has no tags, so the tag source is never
      consulted). */
  lemma PrintReadsBack(e: SExpr, numText: real -> string, tagText: string -> string)
    requires Wellformed(AstPrinter.PrintTree(ToMain(e), numText, tagText))
    ensures Read(Print(e, numText)) == Some(AstPrinter.PrintTree(ToMain(e), numText, tagText))
  {
    PrintAgrees(e, numText, tagText);
    AstPrinter.PrintReadsBack(ToMain(e), numText, tagText);
  }
}

/** The postfix generator of the snapshot,
    src/pages/jlox/visitors/rpn-generator.ts. It has a visitor for every
    node kind of the snapshot, so unlike the main generator it never
    throws; on every snapshot tree it produces what the main generator
    produces for the embedded tree (`RpnAgrees`). */
module SnapshotRpn {
  import opened Basics
  import opened Tokens
  import opened Ast
  import opened SnapshotAst
  import opened Trees
  import RpnGenerator

  /** `computeValue(value, ...exprs)` over the operands' outputs: their
      concatenation, then `value`. */
  function ComputeValue(value: string, outputs: seq<string>): (r: string)
    ensures |outputs| == 0 ==> r == value
    ensures |r| >= |value|
  {
    if |outputs| == 0 then value
    else outputs[0] + ComputeValue(value, outputs[1..])
  }

  /** `getRPN`. */
  function Rpn(e: SExpr, numText: real -> string): (r: string)
    ensures e.SLiteral? ==> r == RpnGenerator.LiteralText(e.lit, numText)
    decreases e
  {
    match e
    case SBinary(l, op, r) => ComputeValue(op.lexeme, [Rpn(l, numText), Rpn(r, numText)])
    case STernary(c, a, b) => ComputeValue("?", [Rpn(c, numText), Rpn(a, numText), Rpn(b, numText)])
    case SGrouping(inner) => ComputeValue("", [Rpn(inner, numText)])
    case SLiteral(v) => ComputeValue(RpnGenerator.LiteralText(v, numText), [])
    case SUnary(op, r) => ComputeValue(op.lexeme, [Rpn(r, numText)])
  }

  lemma ComputeOne(value: string, a: string)
    ensures ComputeValue(value, [a]) == a + value
  {
    assert [a][1..] == [];
  }

  lemma ComputeTwo(value: string, a: string, b: string)
    ensures ComputeValue(value, [a, b]) == a + b + value
  {
    assert [a, b][1..] == [b];
    ComputeOne(value, b);
    assert a + (b + value) == a + b + value;
  }

  lemma ComputeThree(value: string, a: string, b: string, c: string)
    ensures ComputeValue(value, [a, b, c]) == a + b + c + value
  {
    assert [a, b, c][1..] == [b, c];
    ComputeTwo(value, b, c);
    assert a + (b + c + value) == a + b + c + value;
  }

  /** `visitBinaryExpr`: left, right, operator. */
  lemma RpnBinary(l: SExpr, op: Token, r: SExpr, numText: real -> string)
    ensures Rpn(SBinary(l, op, r), numText) == Rpn(l, numText) + Rpn(r, numText) + op.lexeme
  {
    ComputeTwo(op.lexeme, Rpn(l, numText), Rpn(r, numText));
  }

  /** `visitTernaryExpr`: condition, then-branch, else-branch, "?". */
  lemma RpnTernary(c: SExpr, a: SExpr, b: SExpr, numText: real -> string)
    ensures Rpn(STernary(c, a, b), numText) == Rpn(c, numText) + Rpn(a, numText) + Rpn(b, numText) + "?"
  {
    ComputeThree("?", Rpn(c, numText), Rpn(a, numText), Rpn(b, numText));
  }

  /** `visitUnaryExpr`: operand, operator. */
  lemma RpnUnary(op: Token, r: SExpr, numText: real -> string)
    ensures Rpn(SUnary(op, r), numText) == Rpn(r, numText) + op.lexeme
  {
    ComputeOne(op.lexeme, Rpn(r, numText));
  }

  /** `visitGroupingExpr`: the operand's output unchanged. */
  lemma RpnGrouping(inner: SExpr, numText: real -> string)
    ensures Rpn(SGrouping(inner), numText) == Rpn(inner, numText)
  {
    ComputeOne("", Rpn(inner, numText));
    assert Rpn(inner, numText) + "" == Rpn(inner, numText);
  }

  /** The snapshot generator and the main generator agree on every
      snapshot tree: the main one does not throw there, and its output is
      the snapshot's. */
  lemma {:induction false} RpnAgrees(e: SExpr, numText: real -> string)
    ensures RpnGenerator.Rpn(ToMain(e), numText) == Some(Rpn(e, numText))
    decreases e
  {
    match e
    case SBinary(l, op, r) =>
      RpnAgrees(l, numText);
      RpnAgrees(r, numText);
      RpnBinary(l, op, r, numText);
      RpnGenerator.RpnBinary(ToMain(l), op, ToMain(r), numText);
    case STernary(c, a, b) =>
      RpnAgrees(c, numText);
      RpnAgrees(a, numText);
      RpnAgrees(b, numText);
      RpnTernary(c, a, b, numText);
      RpnGenerator.RpnTernary(ToMain(c), ToMain(a), ToMain(b), numText);
    case SGrouping(inner) =>
      RpnAgrees(inner, numText);
      RpnGrouping(inner, numText);
      RpnGenerator.RpnGrouping(ToMain(inner), numText);
    case SUnary(op, r) =>
      RpnAgrees(r, numText);
      RpnUnary(op, r, numText);
      RpnGenerator.RpnUnary(op, ToMain(r), numText);
    case SLiteral(v) =>
  }

  /** The snapshot's output is the concatenation of the main generator's
      pieces, and a stack machine run over those pieces rebuilds the
      expression's shape. */
  lemma PostfixDecodes(e: SExpr, numText: real -> string)
    ensures !RpnGenerator.Throws(ToMain(e))
    ensures Rpn(e, numText) == RpnGenerator.Text(RpnGenerator.Items(ToMain(e), numText))
    ensures RpnGenerator.Run(RpnGenerator.Items(ToMain(e), numText), []) == Some([RpnGenerator.Shape(ToMain(e), numText)])
  {
    RpnAgrees(e, numText);
    RpnGenerator.RpnIsItemsText(ToMain(e), numText);
    RpnGenerator.PostfixDecodes(ToMain(e), numText);
  }
}
