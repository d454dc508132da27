/** The expression-only parser of src/pages/jlox/parser.ts. It parses one
    comma-separated list of expressions and keeps only the last one; the
    first parse error aborts the whole parse (there is no recovery, and its
    `synchronize` is never called), and tokens after the expression are
    ignored. Token access is the same as in the main parser, whose
    `Check`, `CheckAny`, `AtEnd` and level tables are reused here. */
module SnapshotParser {
  import opened Tokens
  import opened Ast
  import opened SnapshotAst
  import opened Parser

  /** A parsed tree and the index after it, or the thrown error: the token
      and message handed to the logger. */
  datatype SParsed = SOk(e: SExpr, pos: nat) | SErr(token: Token, message: string)

  /** No comma among `ts[a..b]`. */
  predicate CommaFree(ts: seq<Token>, a: nat, b: nat) {
    forall k :: a <= k < b && k < |ts| ==> ts[k].kind != COMMA
  }

  /** `r` is the one expression parsed from just after the last comma
      before `r.pos`, or from `start` when no comma follows `start`; a
      single expression never spans a comma. */
  predicate LastOperand(ts: seq<Token>, start: nat, r: SParsed)
    requires WellEnded(ts)
  {
    && r.SOk?
    && exists q :: start <= q < r.pos && q < |ts|
         && (q == start || ts[q - 1].kind == COMMA)
         && CommaFree(ts, q, r.pos) && SnapExpression(ts, q) == SOk(r.e, r.pos)
  }

  /** `parse()`: the expression, or `null` once any error is thrown. */
  function SnapParse(ts: seq<Token>): (r: SParsed)
    requires WellEnded(ts)
    ensures r.SOk? ==> 0 < r.pos < |ts| && !Check(ts, r.pos, COMMA)
    ensures r.SOk? ==> LastOperand(ts, 0, r)
  {
    SnapComma(ts, 0)
  }

  /** `comma()`: expressions separated by commas; each one replaces the
      previous, so only the last survives. */
  function SnapComma(ts: seq<Token>, pos: nat): (r: SParsed)
    requires WellEnded(ts) && pos < |ts|
    ensures r.SOk? ==> pos < r.pos < |ts| && !Check(ts, r.pos, COMMA)
    ensures r.SOk? ==> LastOperand(ts, pos, r)
    decreases |ts| - pos, 15
  {
    match SnapExpression(ts, pos)
    case SErr(t, m) => SErr(t, m)
    case SOk(e, p) =>
      ExpressionCommaFree(ts, pos);
      SnapCommaRest(ts, e, p)
  }

  /** The `while (match(COMMA))` loop of `comma()`. */
  function SnapCommaRest(ts: seq<Token>, e: SExpr, pos: nat): (r: SParsed)
    requires WellEnded(ts) && pos < |ts|
    ensures !Check(ts, pos, COMMA) ==> r == SOk(e, pos)
    ensures r.SOk? ==> pos <= r.pos < |ts| && !Check(ts, r.pos, COMMA)
    ensures r.SOk? && Check(ts, pos, COMMA) ==> LastOperand(ts, pos + 1, r)
    decreases |ts| - pos, 14
  {
    if Check(ts, pos, COMMA) then
      match SnapExpression(ts, pos + 1)
      case SErr(t, m) => SErr(t, m)
      case SOk(e', p) =>
        ExpressionCommaFree(ts, pos + 1);
        SnapCommaRest(ts, e', p)
    else SOk(e, pos)
  }

  /** Once a comma follows, the operand parsed so far plays no part in
      the result: it is parsed (its errors still abort) and discarded. */
  lemma EarlierOperandDiscarded(ts: seq<Token>, e: SExpr, e': SExpr, pos: nat)
    requires WellEnded(ts) && pos < |ts| && Check(ts, pos, COMMA)
    ensures SnapCommaRest(ts, e, pos) == SnapCommaRest(ts, e', pos)
  {}

  /** `expression()`: equality, optionally the condition of a right-nested
      ternary. */
  function SnapExpression(ts: seq<Token>, pos: nat): (r: SParsed)
    requires WellEnded(ts) && pos < |ts|
    ensures r.SOk? ==> pos < r.pos < |ts| && !Check(ts, r.pos, QUESTION_MARK)
    decreases |ts| - pos, 13
  {
    match SnapBinary(ts, 3, pos)
    case SErr(t, m) => SErr(t, m)
    case SOk(e, p) => SnapExpressionRest(ts, e, p)
  }

  /** The `while (match(QUESTION_MARK))` loop of `expression()`. */
  function SnapExpressionRest(ts: seq<Token>, cond: SExpr, pos: nat): (r: SParsed)
    requires WellEnded(ts) && pos < |ts|
    ensures !Check(ts, pos, QUESTION_MARK) ==> r == SOk(cond, pos)
    ensures r.SOk? ==> pos <= r.pos < |ts| && !Check(ts, r.pos, QUESTION_MARK)
    decreases |ts| - pos, 12
  {
    if Check(ts, pos, QUESTION_MARK) then
      match SnapExpression(ts, pos + 1)
      case SErr(t, m) => SErr(t, m)
      case SOk(a, p) => SnapTernaryElse(ts, cond, a, p)
    else SOk(cond, pos)
  }

  /** The rest of one ternary, from the `:` after its then-branch. */
  function SnapTernaryElse(ts: seq<Token>, cond: SExpr, a: SExpr, pos: nat): (r: SParsed)
    requires WellEnded(ts) && pos < |ts|
    ensures !Check(ts, pos, COLON) ==> r == SErr(ts[pos], "Expect a colon.")
    ensures r.SOk? ==> pos < r.pos < |ts| && !Check(ts, r.pos, QUESTION_MARK)
    decreases |ts| - pos, 12
  {
    if !Check(ts, pos, COLON) then SErr(ts[pos], "Expect a colon.")
    else
      match SnapExpression(ts, pos + 1)
      case SErr(t, m) => SErr(t, m)
      case SOk(b, q) => SnapExpressionRest(ts, STernary(cond, a, b), q)
  }

  /** `equality()` ... `multiplication()` for levels 3 to 6 and `unary()`
      for level 7, as in the main parser. */
  function SnapBinary(ts: seq<Token>, level: nat, pos: nat): (r: SParsed)
    requires WellEnded(ts) && pos < |ts| && 3 <= level <= 7
    ensures r.SOk? ==> pos < r.pos < |ts|
    ensures r.SOk? && level < 7 ==> !AtLevel(ts, r.pos, level)
    decreases |ts| - pos, 2 * (8 - level)
  {
    if level == 7 then SnapUnary(ts, pos)
    else
      match SnapBinary(ts, level + 1, pos)
      case SErr(t, m) => SErr(t, m)
      case SOk(left, p) => SnapBinaryRest(ts, level, left, p)
  }

  /** The `while (match(...))` loop of one binary level. */
  function SnapBinaryRest(ts: seq<Token>, level: nat, left: SExpr, pos: nat): (r: SParsed)
    requires WellEnded(ts) && pos < |ts| && 3 <= level <= 6
    ensures !AtLevel(ts, pos, level) ==> r == SOk(left, pos)
    ensures r.SOk? ==> pos <= r.pos < |ts| && !AtLevel(ts, r.pos, level)
    decreases |ts| - pos, 2 * (8 - level) - 1
  {
    if AtLevel(ts, pos, level) then
      var op := ts[pos];
      match SnapBinary(ts, level + 1, pos + 1)
      case SErr(t, m) => SErr(t, m)
      case SOk(right, p) => SnapBinaryRest(ts, level, SBinary(left, op, right), p)
    else SOk(left, pos)
  }

  /** `unary()`: prefix `!` and `-`, nested to the right. */
  function SnapUnary(ts: seq<Token>, pos: nat): (r: SParsed)
    requires WellEnded(ts) && pos < |ts|
    ensures r.SOk? ==> pos < r.pos < |ts|
    decreases |ts| - pos, 1
  {
    if CheckAny(ts, pos, [BANG, MINUS]) then
      match SnapUnary(ts, pos + 1)
      case SErr(t, m) => SErr(t, m)
      case SOk(right, p) => SOk(SUnary(ts[pos], right), p)
    else SnapPrimary(ts, pos)
  }

  /** `primary()`: literals, tag lexemes and parenthesized expressions;
      there are no identifiers in this grammar. */
  function SnapPrimary(ts: seq<Token>, pos: nat): (r: SParsed)
    requires WellEnded(ts) && pos < |ts|
    ensures r.SOk? ==> pos < r.pos < |ts|
    ensures var t := ts[pos];
      && (t.kind == FALSE ==> r == SOk(SLiteral(LBool(false)), pos + 1))
      && (t.kind == TRUE ==> r == SOk(SLiteral(LBool(true)), pos + 1))
      && (t.kind == NIL ==> r == SOk(SLiteral(LNil), pos + 1))
      && (t.kind in {NUMBER, STRING} ==> r == SOk(SLiteral(LiteralOf(t.literal)), pos + 1))
      && (t.kind == TAG ==> r == SOk(SLiteral(LStr(t.lexeme)), pos + 1))
      && (t.kind == LEFT_PAREN ==> r == SnapGroup(ts, pos))
      && (t.kind !in {FALSE, TRUE, NIL, NUMBER, STRING, TAG, LEFT_PAREN} ==>
            r == SErr(t, "Expect expression."))
    decreases |ts| - pos, 0
  {
    var t := ts[pos];
    match t.kind
    case FALSE => SOk(SLiteral(LBool(false)), pos + 1)
    case TRUE => SOk(SLiteral(LBool(true)), pos + 1)
    case NIL => SOk(SLiteral(LNil), pos + 1)
    case NUMBER => SOk(SLiteral(LiteralOf(t.literal)), pos + 1)
    case STRING => SOk(SLiteral(LiteralOf(t.literal)), pos + 1)
    case TAG => SOk(SLiteral(LStr(t.lexeme)), pos + 1)
    case LEFT_PAREN => SnapGroup(ts, pos)
    case _ => SErr(t, "Expect expression.")
  }

  /** The parenthesized branch of `primary()`. */
  function SnapGroup(ts: seq<Token>, pos: nat): (r: SParsed)
    requires WellEnded(ts) && pos < |ts| && Check(ts, pos, LEFT_PAREN)
    ensures r.SOk? ==> pos < r.pos < |ts| && r.e.SGrouping?
    decreases |ts| - pos - 1, 14
  {
    match SnapExpression(ts, pos + 1)
    case SErr(t, m) => SErr(t, m)
    case SOk(inner, p) =>
      if Check(ts, p, RIGHT_PAREN) then SOk(SGrouping(inner), p + 1)
      else SErr(ts[p], "Expect ')' after expression.")
  }

  // ---------------------------------------------------------------------
  // No expression spans a comma: only `comma()` consumes one

  lemma CommaFreeJoin(ts: seq<Token>, a: nat, b: nat, c: nat)
    requires CommaFree(ts, a, b) && CommaFree(ts, b, c)
    ensures CommaFree(ts, a, c)
  {}

  lemma CommaFreeOne(ts: seq<Token>, a: nat)
    requires a < |ts| && ts[a].kind != COMMA
    ensures CommaFree(ts, a, a + 1)
  {}

  lemma {:induction false} ExpressionCommaFree(ts: seq<Token>, pos: nat)
    requires WellEnded(ts) && pos < |ts|
    ensures var r := SnapExpression(ts, pos); r.SOk? ==> CommaFree(ts, pos, r.pos)
    decreases |ts| - pos, 13
  {
    BinaryCommaFree(ts, 3, pos);
    match SnapBinary(ts, 3, pos)
    case SErr(_, _) =>
    case SOk(e, p) => ExpressionRestCommaFree(ts, e, p);
  }

  lemma {:induction false} ExpressionRestCommaFree(ts: seq<Token>, cond: SExpr, pos: nat)
    requires WellEnded(ts) && pos < |ts|
    ensures var r := SnapExpressionRest(ts, cond, pos); r.SOk? ==> CommaFree(ts, pos, r.pos)
    decreases |ts| - pos, 12
  {
    if Check(ts, pos, QUESTION_MARK) {
      ExpressionCommaFree(ts, pos + 1);
      match SnapExpression(ts, pos + 1)
      case SErr(_, _) =>
      case SOk(a, p) => TernaryElseCommaFree(ts, cond, a, p);
    }
  }

  lemma {:induction false} TernaryElseCommaFree(ts: seq<Token>, cond: SExpr, a: SExpr, pos: nat)
    requires WellEnded(ts) && pos < |ts|
    ensures var r := SnapTernaryElse(ts, cond, a, pos); r.SOk? ==> CommaFree(ts, pos, r.pos)
    decreases |ts| - pos, 11
  {
    if Check(ts, pos, COLON) {
      ExpressionCommaFree(ts, pos + 1);
      match SnapExpression(ts, pos + 1)
      case SErr(_, _) =>
      case SOk(b, q) => ExpressionRestCommaFree(ts, STernary(cond, a, b), q);
    }
  }

  lemma {:induction false} BinaryCommaFree(ts: seq<Token>, level: nat, pos: nat)
    requires WellEnded(ts) && pos < |ts| && 3 <= level <= 7
    ensures var r := SnapBinary(ts, level, pos); r.SOk? ==> CommaFree(ts, pos, r.pos)
    decreases |ts| - pos, 2 * (8 - level)
  {
    if level == 7 {
      UnaryCommaFree(ts, pos);
    } else {
      BinaryCommaFree(ts, level + 1, pos);
      match SnapBinary(ts, level + 1, pos)
      case SErr(_, _) =>
      case SOk(left, p) => BinaryRestCommaFree(ts, level, left, p);
    }
  }

  lemma {:induction false} BinaryRestCommaFree(ts: seq<Token>, level: nat, left: SExpr, pos: nat)
    requires WellEnded(ts) && pos < |ts| && 3 <= level <= 6
    ensures var r := SnapBinaryRest(ts, level, left, pos); r.SOk? ==> CommaFree(ts, pos, r.pos)
    decreases |ts| - pos, 2 * (8 - level) - 1
  {
    if AtLevel(ts, pos, level) {
      BinaryCommaFree(ts, level + 1, pos + 1);
      match SnapBinary(ts, level + 1, pos + 1)
      case SErr(_, _) =>
      case SOk(right, p) =>
        var next := SBinary(left, ts[pos], right);
        BinaryRestCommaFree(ts, level, next, p);
        var r := SnapBinaryRest(ts, level, next, p);
        assert SnapBinaryRest(ts, level, left, pos) == r;
        if r.SOk? {
          CommaFreeJoin(ts, pos + 1, p, r.pos);
          CommaFreeOne(ts, pos);
          CommaFreeJoin(ts, pos, pos + 1, r.pos);
        }
    }
  }

  lemma {:induction false} UnaryCommaFree(ts: seq<Token>, pos: nat)
    requires WellEnded(ts) && pos < |ts|
    ensures var r := SnapUnary(ts, pos); r.SOk? ==> CommaFree(ts, pos, r.pos)
    decreases |ts| - pos, 1
  {
    if CheckAny(ts, pos, [BANG, MINUS]) {
      UnaryCommaFree(ts, pos + 1);
    } else if Check(ts, pos, LEFT_PAREN) {
      GroupCommaFree(ts, pos);
    } else {
      var r := SnapPrimary(ts, pos);
      assert r.SOk? ==> r.pos == pos + 1 && ts[pos].kind != COMMA;
    }
  }

  lemma {:induction false} GroupCommaFree(ts: seq<Token>, pos: nat)
    requires WellEnded(ts) && pos < |ts| && Check(ts, pos, LEFT_PAREN)
    ensures var r := SnapGroup(ts, pos); r.SOk? ==> CommaFree(ts, pos, r.pos)
    decreases |ts| - pos - 1, 15
  {
    ExpressionCommaFree(ts, pos + 1);
    var inner := SnapExpression(ts, pos + 1);
    if inner.SOk? && Check(ts, inner.pos, RIGHT_PAREN) {
      var p := inner.pos;
      assert SnapGroup(ts, pos) == SOk(SGrouping(inner.e), p + 1);
      CommaFreeOne(ts, pos);
      CommaFreeOne(ts, p);
      CommaFreeJoin(ts, pos, pos + 1, p);
      CommaFreeJoin(ts, pos, p, p + 1);
    } else {
      assert SnapGroup(ts, pos).SErr?;
    }
  }

  // ---------------------------------------------------------------------
  // Agreement with the main parser

  /** Token lists in which the main grammar's extra productions cannot
      fire: no identifiers (the snapshot has no variables) and no `=` (it
      has no assignment). */
  predicate NoNames(ts: seq<Token>) {
    forall i :: 0 <= i < |ts| ==> ts[i].kind != IDENTIFIER && ts[i].kind != EQUAL
  }

  /** The two parsers give the same tree and stop at the same token, or
      both throw, the main one logging the snapshot's error after `errs`. */
  predicate Agree(sr: SParsed, mr: Parsed<Expr>, errs: seq<ParseError>) {
    && (sr.SOk? ==> mr == Ok(ToMain(sr.e), Cursor(sr.pos, errs)))
    && (sr.SErr? ==> mr.Err? && mr.cur.errors == errs + [ParseError(sr.token, sr.message)])
  }

  /** Without `=`, the main parser's `assignment()` is just `equality()`. */
  lemma AssignmentIsEquality(ts: seq<Token>, pos: nat, errs: seq<ParseError>)
    requires WellEnded(ts) && pos < |ts| && NoNames(ts)
    ensures ParseAssignment(ts, Cursor(pos, errs)) == ParseBinary(ts, 3, Cursor(pos, errs))
  {
    var c := Cursor(pos, errs);
    match ParseBinary(ts, 3, c)
    case Err(_) =>
    case Ok(_, d) => assert ts[d.pos].kind != EQUAL;
  }

  /** The snapshot's `expression()` is the main parser's, on the inputs
      both accept: same precedence ladder, same associativity, same
      right-nested ternary, same errors. */
  lemma {:induction false} ExpressionAgrees(ts: seq<Token>, pos: nat, errs: seq<ParseError>)
    requires WellEnded(ts) && pos < |ts| && NoNames(ts)
    ensures Agree(SnapExpression(ts, pos), ParseExpression(ts, Cursor(pos, errs)), errs)
    decreases |ts| - pos, 13
  {
    AssignmentIsEquality(ts, pos, errs);
    BinaryAgrees(ts, 3, pos, errs);
    match SnapBinary(ts, 3, pos)
    case SErr(_, _) =>
    case SOk(e, p) => ExpressionRestAgrees(ts, e, p, errs);
  }

  lemma {:induction false} ExpressionRestAgrees(ts: seq<Token>, cond: SExpr, pos: nat, errs: seq<ParseError>)
    requires WellEnded(ts) && pos < |ts| && NoNames(ts)
    ensures Agree(SnapExpressionRest(ts, cond, pos), ExpressionRest(ts, ToMain(cond), Cursor(pos, errs)), errs)
    decreases |ts| - pos, 12
  {
    if Check(ts, pos, QUESTION_MARK) {
      ExpressionAgrees(ts, pos + 1, errs);
      var then_ := SnapExpression(ts, pos + 1);
      if then_.SOk? {
        TernaryElseAgrees(ts, cond, then_.e, then_.pos, errs);
      }
      QuestionStep(ts, cond, pos, errs);
    }
  }

  /** One `?` step of the ternary loop, from the agreement of its parts. */
  lemma QuestionStep(ts: seq<Token>, cond: SExpr, pos: nat, errs: seq<ParseError>)
    requires WellEnded(ts) && pos < |ts| && Check(ts, pos, QUESTION_MARK)
    requires Agree(SnapExpression(ts, pos + 1), ParseExpression(ts, Cursor(pos + 1, errs)), errs)
    requires var a := SnapExpression(ts, pos + 1);
      a.SOk? ==> Agree(SnapTernaryElse(ts, cond, a.e, a.pos), TernaryElse(ts, ToMain(cond), ToMain(a.e), Cursor(a.pos, errs)), errs)
    ensures Agree(SnapExpressionRest(ts, cond, pos), ExpressionRest(ts, ToMain(cond), Cursor(pos, errs)), errs)
  {
    assert Advance(ts, Cursor(pos, errs)) == Cursor(pos + 1, errs);
  }

  lemma {:induction false} TernaryElseAgrees(ts: seq<Token>, cond: SExpr, a: SExpr, pos: nat, errs: seq<ParseError>)
    requires WellEnded(ts) && pos < |ts| && NoNames(ts)
    ensures Agree(SnapTernaryElse(ts, cond, a, pos), TernaryElse(ts, ToMain(cond), ToMain(a), Cursor(pos, errs)), errs)
    decreases |ts| - pos, 12, 1
  {
    if Check(ts, pos, COLON) {
      ColonAgrees(ts, cond, a, pos, errs);
    }
  }

  lemma {:induction false} ColonAgrees(ts: seq<Token>, cond: SExpr, a: SExpr, pos: nat, errs: seq<ParseError>)
    requires WellEnded(ts) && pos < |ts| && NoNames(ts) && Check(ts, pos, COLON)
    ensures Agree(SnapTernaryElse(ts, cond, a, pos), TernaryElse(ts, ToMain(cond), ToMain(a), Cursor(pos, errs)), errs)
    decreases |ts| - pos, 12, 0
  {
    ExpressionAgrees(ts, pos + 1, errs);
    var else_ := SnapExpression(ts, pos + 1);
    if else_.SOk? {
      ExpressionRestAgrees(ts, STernary(cond, a, else_.e), else_.pos, errs);
    }
    ColonStep(ts, cond, a, pos, errs);
  }

  /** The `:` step of one ternary, from the agreement of its parts. */
  lemma ColonStep(ts: seq<Token>, cond: SExpr, a: SExpr, pos: nat, errs: seq<ParseError>)
    requires WellEnded(ts) && pos < |ts| && Check(ts, pos, COLON)
    requires Agree(SnapExpression(ts, pos + 1), ParseExpression(ts, Cursor(pos + 1, errs)), errs)
    requires var b := SnapExpression(ts, pos + 1);
      b.SOk? ==> Agree(SnapExpressionRest(ts, STernary(cond, a, b.e), b.pos),
                       ExpressionRest(ts, Ternary(ToMain(cond), ToMain(a), ToMain(b.e)), Cursor(b.pos, errs)), errs)
    ensures Agree(SnapTernaryElse(ts, cond, a, pos), TernaryElse(ts, ToMain(cond), ToMain(a), Cursor(pos, errs)), errs)
  {
    assert Advance(ts, Cursor(pos, errs)) == Cursor(pos + 1, errs);
  }

  lemma {:induction false} BinaryAgrees(ts: seq<Token>, level: nat, pos: nat, errs: seq<ParseError>)
    requires WellEnded(ts) && pos < |ts| && NoNames(ts) && 3 <= level <= 7
    ensures Agree(SnapBinary(ts, level, pos), ParseBinary(ts, level, Cursor(pos, errs)), errs)
    decreases |ts| - pos, 2 * (8 - level)
  {
    if level == 7 {
      UnaryAgrees(ts, pos, errs);
    } else {
      BinaryAgrees(ts, level + 1, pos, errs);
      var left := SnapBinary(ts, level + 1, pos);
      if left.SOk? {
        FirstOperand(ts, level, pos, errs);
        BinaryRestAgrees(ts, level, left.e, left.pos, errs);
      }
      OperandStep(ts, level, pos, errs);
    }
  }

  /** An operand the two parsers agree on has the shape the loop needs. */
  lemma FirstOperand(ts: seq<Token>, level: nat, pos: nat, errs: seq<ParseError>)
    requires WellEnded(ts) && pos < |ts| && 3 <= level <= 6
    requires Agree(SnapBinary(ts, level + 1, pos), ParseBinary(ts, level + 1, Cursor(pos, errs)), errs)
    requires SnapBinary(ts, level + 1, pos).SOk?
    ensures Shaped(ToMain(SnapBinary(ts, level + 1, pos).e)) && Prec(ToMain(SnapBinary(ts, level + 1, pos).e)) >= level
  {
  }

  /** One binary level, from the agreement of its first operand and of
      the loop that follows it. */
  lemma OperandStep(ts: seq<Token>, level: nat, pos: nat, errs: seq<ParseError>)
    requires WellEnded(ts) && pos < |ts| && 3 <= level <= 6
    requires Agree(SnapBinary(ts, level + 1, pos), ParseBinary(ts, level + 1, Cursor(pos, errs)), errs)
    requires var l := SnapBinary(ts, level + 1, pos);
      l.SOk? ==> Agree(SnapBinaryRest(ts, level, l.e, l.pos), BinaryRest(ts, level, ToMain(l.e), Cursor(l.pos, errs)), errs)
    ensures Agree(SnapBinary(ts, level, pos), ParseBinary(ts, level, Cursor(pos, errs)), errs)
  {
  }

  lemma {:induction false} BinaryRestAgrees(ts: seq<Token>, level: nat, left: SExpr, pos: nat, errs: seq<ParseError>)
    requires WellEnded(ts) && pos < |ts| && NoNames(ts) && 3 <= level <= 6
    requires Shaped(ToMain(left)) && Prec(ToMain(left)) >= level
    ensures Agree(SnapBinaryRest(ts, level, left, pos), BinaryRest(ts, level, ToMain(left), Cursor(pos, errs)), errs)
    decreases |ts| - pos, 2 * (8 - level) - 1, 1
  {
    if AtLevel(ts, pos, level) {
      OperatorAgrees(ts, level, left, pos, errs);
    }
  }

  /** One round of a binary level's loop, on a matched operator. */
  lemma {:induction false} OperatorAgrees(ts: seq<Token>, level: nat, left: SExpr, pos: nat, errs: seq<ParseError>)
    requires WellEnded(ts) && pos < |ts| && NoNames(ts) && 3 <= level <= 6 && AtLevel(ts, pos, level)
    requires Shaped(ToMain(left)) && Prec(ToMain(left)) >= level
    ensures Agree(SnapBinaryRest(ts, level, left, pos), BinaryRest(ts, level, ToMain(left), Cursor(pos, errs)), errs)
    decreases |ts| - pos, 2 * (8 - level) - 1, 0
  {
    BinaryAgrees(ts, level + 1, pos + 1, errs);
    var right := SnapBinary(ts, level + 1, pos + 1);
    if right.SOk? {
      NextLeft(ts, level, left, pos, errs);
      var next := SBinary(left, ts[pos], right.e);
      BinaryRestAgrees(ts, level, next, right.pos, errs);
      assert Agree(SnapBinaryRest(ts, level, next, right.pos),
                   BinaryRest(ts, level, ToMain(next), Cursor(right.pos, errs)), errs);
      OperatorStep(ts, level, left, pos, errs);
    } else {
      OperatorStep(ts, level, left, pos, errs);
    }
  }

  /** The node one operator builds keeps the shape the loop needs. */
  lemma NextLeft(ts: seq<Token>, level: nat, left: SExpr, pos: nat, errs: seq<ParseError>)
    requires WellEnded(ts) && pos < |ts| && 3 <= level <= 6 && AtLevel(ts, pos, level)
    requires Shaped(ToMain(left)) && Prec(ToMain(left)) >= level
    requires Agree(SnapBinary(ts, level + 1, pos + 1), ParseBinary(ts, level + 1, Cursor(pos + 1, errs)), errs)
    requires SnapBinary(ts, level + 1, pos + 1).SOk?
    ensures var e := SBinary(left, ts[pos], SnapBinary(ts, level + 1, pos + 1).e);
      Shaped(ToMain(e)) && Prec(ToMain(e)) >= level
  {
  }

  /** One operator of a binary level's loop, from the agreement of its
      right operand and of the rest of the loop. */
  lemma OperatorStep(ts: seq<Token>, level: nat, left: SExpr, pos: nat, errs: seq<ParseError>)
    requires WellEnded(ts) && pos < |ts| && 3 <= level <= 6 && AtLevel(ts, pos, level)
    requires Shaped(ToMain(left)) && Prec(ToMain(left)) >= level
    requires Agree(SnapBinary(ts, level + 1, pos + 1), ParseBinary(ts, level + 1, Cursor(pos + 1, errs)), errs)
    requires var r := SnapBinary(ts, level + 1, pos + 1);
      r.SOk? ==> Shaped(ToMain(SBinary(left, ts[pos], r.e))) && Prec(ToMain(SBinary(left, ts[pos], r.e))) >= level && Agree(SnapBinaryRest(ts, level, SBinary(left, ts[pos], r.e), r.pos),
                       BinaryRest(ts, level, ToMain(SBinary(left, ts[pos], r.e)), Cursor(r.pos, errs)), errs)
    ensures Agree(SnapBinaryRest(ts, level, left, pos), BinaryRest(ts, level, ToMain(left), Cursor(pos, errs)), errs)
  {
    assert Advance(ts, Cursor(pos, errs)) == Cursor(pos + 1, errs);
    var r := SnapBinary(ts, level + 1, pos + 1);
    if r.SOk? {
      assert ToMain(SBinary(left, ts[pos], r.e)) == Binary(ToMain(left), ts[pos], ToMain(r.e));
    }
  }

  lemma {:induction false} UnaryAgrees(ts: seq<Token>, pos: nat, errs: seq<ParseError>)
    requires WellEnded(ts) && pos < |ts| && NoNames(ts)
    ensures Agree(SnapUnary(ts, pos), ParseUnary(ts, Cursor(pos, errs)), errs)
    decreases |ts| - pos, 1
  {
    if CheckAny(ts, pos, [BANG, MINUS]) {
      UnaryAgrees(ts, pos + 1, errs);
    } else {
      PrimaryAgrees(ts, pos, errs);
    }
  }

  lemma {:induction false} PrimaryAgrees(ts: seq<Token>, pos: nat, errs: seq<ParseError>)
    requires WellEnded(ts) && pos < |ts| && NoNames(ts)
    ensures Agree(SnapPrimary(ts, pos), ParsePrimary(ts, Cursor(pos, errs)), errs)
    decreases |ts| - pos, 0
  {
    if ts[pos].kind == LEFT_PAREN {
      GroupAgrees(ts, pos, errs);
    } else {
      assert ts[pos].kind != IDENTIFIER;
    }
  }

  lemma {:induction false} GroupAgrees(ts: seq<Token>, pos: nat, errs: seq<ParseError>)
    requires WellEnded(ts) && pos < |ts| && NoNames(ts) && Check(ts, pos, LEFT_PAREN)
    ensures Agree(SnapGroup(ts, pos), ParseGroup(ts, Cursor(pos, errs)), errs)
    decreases |ts| - pos - 1, 14
  {
    ExpressionAgrees(ts, pos + 1, errs);
    GroupStep(ts, pos, errs);
  }

  /** The parenthesized case, from the agreement of the inner expression. */
  lemma GroupStep(ts: seq<Token>, pos: nat, errs: seq<ParseError>)
    requires WellEnded(ts) && pos < |ts| && Check(ts, pos, LEFT_PAREN)
    requires Agree(SnapExpression(ts, pos + 1), ParseExpression(ts, Cursor(pos + 1, errs)), errs)
    ensures Agree(SnapGroup(ts, pos), ParseGroup(ts, Cursor(pos, errs)), errs)
  {
    assert Advance(ts, Cursor(pos, errs)) == Cursor(pos + 1, errs);
    var inner := SnapExpression(ts, pos + 1);
    if inner.SOk? {
      ClosingParen(ts, pos, errs);
    } else {
      assert SnapGroup(ts, pos) == SErr(inner.token, inner.message);
    }
  }

  /** The parenthesized case once the inner expression has parsed: both
      parsers then check for the closing parenthesis. */
  lemma ClosingParen(ts: seq<Token>, pos: nat, errs: seq<ParseError>)
    requires WellEnded(ts) && pos < |ts| && Check(ts, pos, LEFT_PAREN)
    requires SnapExpression(ts, pos + 1).SOk?
    requires ParseExpression(ts, Advance(ts, Cursor(pos, errs)))
      == Ok(ToMain(SnapExpression(ts, pos + 1).e), Cursor(SnapExpression(ts, pos + 1).pos, errs))
    ensures Agree(SnapGroup(ts, pos), ParseGroup(ts, Cursor(pos, errs)), errs)
  {
    var inner := SnapExpression(ts, pos + 1);
    var close := Consume(ts, Cursor(inner.pos, errs), RIGHT_PAREN, "Expect ')' after expression.");
    if Check(ts, inner.pos, RIGHT_PAREN) {
      assert SnapGroup(ts, pos) == SOk(SGrouping(inner.e), inner.pos + 1);
      assert ParseGroup(ts, Cursor(pos, errs)) == Ok(Grouping(ToMain(inner.e)), close.cur);
      assert ToMain(SGrouping(inner.e)) == Grouping(ToMain(inner.e));
    } else {
      assert SnapGroup(ts, pos) == SErr(ts[inner.pos], "Expect ')' after expression.");
    }
  }

  // ---------------------------------------------------------------------
  // The comma list and trailing tokens

  /** `1, 2, 3` parses to the last operand alone. */
  lemma CommaKeepsLast(ts: seq<Token>)
    requires |ts| == 6 && ts[5].kind == EOF
    requires ts[0].kind == NUMBER && ts[2].kind == NUMBER && ts[4].kind == NUMBER
    requires ts[1].kind == COMMA && ts[3].kind == COMMA
    ensures SnapParse(ts) == SOk(SLiteral(LiteralOf(ts[4].literal)), 5)
  {
    OperandAlone(ts, 0);
    OperandAlone(ts, 2);
    OperandAlone(ts, 4);
    assert SnapCommaRest(ts, SLiteral(LiteralOf(ts[4].literal)), 5) == SOk(SLiteral(LiteralOf(ts[4].literal)), 5);
    assert SnapCommaRest(ts, SLiteral(LiteralOf(ts[2].literal)), 3) == SOk(SLiteral(LiteralOf(ts[4].literal)), 5);
    assert SnapCommaRest(ts, SLiteral(LiteralOf(ts[0].literal)), 1) == SOk(SLiteral(LiteralOf(ts[4].literal)), 5);
  }

  /** A NUMBER followed by a token that continues no production parses to
      that number alone, stopping right after it. */
  lemma OperandAlone(ts: seq<Token>, pos: nat)
    requires WellEnded(ts) && pos + 1 < |ts| && ts[pos].kind == NUMBER
    requires ts[pos + 1].kind in {COMMA, EOF, NUMBER}
    ensures SnapExpression(ts, pos) == SOk(SLiteral(LiteralOf(ts[pos].literal)), pos + 1)
  {
    var e := SLiteral(LiteralOf(ts[pos].literal));
    assert SnapUnary(ts, pos) == SOk(e, pos + 1);
    assert SnapBinary(ts, 7, pos) == SOk(e, pos + 1);
    assert SnapBinary(ts, 6, pos) == SOk(e, pos + 1);
    assert SnapBinary(ts, 5, pos) == SOk(e, pos + 1);
    assert SnapBinary(ts, 4, pos) == SOk(e, pos + 1);
    assert SnapBinary(ts, 3, pos) == SOk(e, pos + 1);
  }

  /** Tokens after the first complete expression are never looked at:
      `1 2` parses to `1`, stopping in front of the `2`, with no error. */
  lemma TrailingTokensIgnored(ts: seq<Token>)
    requires |ts| == 3 && ts[2].kind == EOF && ts[0].kind == NUMBER && ts[1].kind == NUMBER
    ensures SnapParse(ts) == SOk(SLiteral(LiteralOf(ts[0].literal)), 1)
  {
    OperandAlone(ts, 0);
  }
}
