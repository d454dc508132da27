/** The recursive-descent parser of src/jlox/parser.ts. The parser's
    mutable `current` index and the errors it logs become a `Cursor` value
    threaded through pure functions; a thrown parse error becomes an `Err`
    that carries the cursor at the point of the throw, so that the
    enclosing declaration can synchronize from there. */
module Parser {
  import opened Basics
  import opened Tokens
  import opened Ast

  /** An error the parser logs: the offending token and the message. */
  datatype ParseError = ParseError(token: Token, message: string)

  datatype Cursor = Cursor(pos: nat, errors: seq<ParseError>)

  /** `Ok` is a parsed node and the cursor after it; `Err` is a thrown
      parse error, with the cursor where it was thrown. */
  datatype Parsed<T> = Ok(value: T, cur: Cursor) | Err(cur: Cursor)

  // ---------------------------------------------------------------------
  // Token access

  /** What the parser assumes of its input, and what the scanner
      guarantees: a non-empty token list whose last token is EOF. */
  predicate WellEnded(ts: seq<Token>) {
    |ts| > 0 && ts[|ts| - 1].kind == EOF
  }

  predicate Valid(ts: seq<Token>, c: Cursor) {
    WellEnded(ts) && c.pos < |ts|
  }

  /** The cursor only moves forward, and logged errors are never dropped. */
  predicate Moves(c: Cursor, d: Cursor) {
    c.pos <= d.pos && c.errors <= d.errors
  }

  predicate AtEnd(ts: seq<Token>, pos: nat)
    requires pos < |ts|
  {
    ts[pos].kind == EOF
  }

  predicate Check(ts: seq<Token>, pos: nat, kind: TokenType)
    requires pos < |ts|
  {
    !AtEnd(ts, pos) && ts[pos].kind == kind
  }

  /** `match(...kinds)` succeeds when the current token has any of `kinds`. */
  predicate CheckAny(ts: seq<Token>, pos: nat, kinds: seq<TokenType>)
    requires pos < |ts|
  {
    !AtEnd(ts, pos) && ts[pos].kind in kinds
  }

  function Advance(ts: seq<Token>, c: Cursor): (d: Cursor)
    requires Valid(ts, c)
    ensures Valid(ts, d) && d.errors == c.errors
    ensures AtEnd(ts, c.pos) ==> d.pos == c.pos
    ensures !AtEnd(ts, c.pos) ==> d.pos == c.pos + 1
  {
    if AtEnd(ts, c.pos) then c else c.(pos := c.pos + 1)
  }

  function Report(c: Cursor, token: Token, message: string): (d: Cursor)
    ensures d.pos == c.pos && d.errors == c.errors + [ParseError(token, message)]
  {
    c.(errors := c.errors + [ParseError(token, message)])
  }

  function Consume(ts: seq<Token>, c: Cursor, kind: TokenType, message: string): (r: Parsed<Token>)
    requires Valid(ts, c)
    ensures Valid(ts, r.cur) && Moves(c, r.cur)
    ensures r.Ok? <==> Check(ts, c.pos, kind)
    ensures r.Ok? ==> r.value == ts[c.pos] && r.cur.pos == c.pos + 1 && r.cur.errors == c.errors
    ensures r.Err? ==> r.cur.pos == c.pos && r.cur.errors == c.errors + [ParseError(ts[c.pos], message)]
  {
    if Check(ts, c.pos, kind) then Ok(ts[c.pos], Advance(ts, c))
    else Err(Report(c, ts[c.pos], message))
  }

  // ---------------------------------------------------------------------
  // The shape of parsed expressions: precedence and associativity

  /** The operators of each binary level, loosest first: equality (3),
      comparison (4), additive (5), multiplicative (6). */
  function LevelOps(level: nat): seq<TokenType>
    requires 3 <= level <= 6
  {
    if level == 3 then [BANG_EQUAL, EQUAL_EQUAL]
    else if level == 4 then [GREATER, GREATER_EQUAL, LESS, LESS_EQUAL]
    else if level == 5 then [MINUS, PLUS]
    else [SLASH, STAR]
  }

  /** The binding power of a binary operator; 0 for anything else. */
  function OperatorLevel(kind: TokenType): nat {
    match kind
    case BANG_EQUAL => 3
    case EQUAL_EQUAL => 3
    case GREATER => 4
    case GREATER_EQUAL => 4
    case LESS => 4
    case LESS_EQUAL => 4
    case MINUS => 5
    case PLUS => 5
    case SLASH => 6
    case STAR => 6
    case _ => 0
  }

  /** The level tables and the operator levels agree. */
  lemma LevelOpsMatch(level: nat, kind: TokenType)
    requires 3 <= level <= 6
    ensures kind in LevelOps(level) <==> OperatorLevel(kind) == level
  {
  }

  /** `match(...)` with the operators of one binary level. */
  predicate AtLevel(ts: seq<Token>, pos: nat, level: nat)
    requires pos < |ts| && 3 <= level <= 6
  {
    !AtEnd(ts, pos) && OperatorLevel(ts[pos].kind) == level
  }

  /** ... which is `CheckAny` over that level's table. */
  lemma AtLevelMatchesTable(ts: seq<Token>, pos: nat, level: nat)
    requires pos < |ts| && 3 <= level <= 6
    ensures AtLevel(ts, pos, level) <==> CheckAny(ts, pos, LevelOps(level))
  {
    LevelOpsMatch(level, ts[pos].kind);
  }

  /** How loosely a node binds: comma 0, ternary 1, assignment 2, binary
      operators 3 to 6, unary 7, primary 8. */
  function Prec(e: Expr): nat {
    match e
    case Comma(_, _) => 0
    case Ternary(_, _, _) => 1
    case Assign(_, _, _) => 2
    case Binary(_, op, _) => OperatorLevel(op.kind)
    case Unary(_, _) => 7
    case _ => 8
  }

  /** The trees the expression grammar can produce. A binary node's left
      operand binds at least as tightly as the node and its right operand
      strictly more tightly, which is left associativity; a ternary's
      condition binds tighter than a ternary, a comma's left operand
      tighter than a comma, and an assignment's value is itself an
      assignment or tighter, which is right associativity. Parentheses
      hold an expression that has no top-level comma. */
  predicate Shaped(e: Expr) {
    match e
    case Comma(v, r) => Shaped(v) && Prec(v) >= 1 && Shaped(r)
    case Ternary(c, a, b) =>
      Shaped(c) && Prec(c) >= 2 && Shaped(a) && Prec(a) >= 1 && Shaped(b) && Prec(b) >= 1
    case Assign(name, v, _) => name.kind == IDENTIFIER && Shaped(v) && Prec(v) >= 2
    case Binary(l, op, r) =>
      3 <= OperatorLevel(op.kind) && Shaped(l) && Prec(l) >= OperatorLevel(op.kind)
      && Shaped(r) && Prec(r) > OperatorLevel(op.kind)
    case Unary(op, r) => (op.kind == BANG || op.kind == MINUS) && Shaped(r) && Prec(r) >= 7
    case Grouping(inner) => Shaped(inner) && Prec(inner) >= 1
    case Literal(_) => true
    case Variable(name, _) => name.kind == IDENTIFIER
    case _ => false
  }

  /** The statements the declaration grammar can produce. A `var`
      initializer is an `expression()`, never a top-level comma. */
  predicate ShapedStmt(s: Stmt) {
    match s
    case Expression(e) => Shaped(e)
    case Print(e) => Shaped(e)
    case Var(name, init) =>
      name.kind == IDENTIFIER && (init.Some? ==> Shaped(init.value) && Prec(init.value) >= 1)
    case Block(ss) => forall i :: 0 <= i < |ss| ==> ShapedStmt(ss[i])
    case NullStmt => true
    case _ => false
  }

  // ---------------------------------------------------------------------
  // Expressions: comma -> expression -> assignment -> binary levels ->
  // unary -> primary

  /** `comma()`: a right-nested list of expressions. */
  function ParseComma(ts: seq<Token>, c: Cursor): (r: Parsed<Expr>)
    requires Valid(ts, c)
    ensures Valid(ts, r.cur) && Moves(c, r.cur)
    ensures r.Ok? ==> r.cur.pos > c.pos && Shaped(r.value) && !Check(ts, r.cur.pos, COMMA)
    ensures r.Err? ==> |r.cur.errors| > |c.errors|
    decreases |ts| - c.pos, 15
  {
    match ParseExpression(ts, c)
    case Err(d) => Err(d)
    case Ok(e, d) => CommaRest(ts, e, d)
  }

  /** The `while (match(COMMA))` loop of `comma()`. */
  function CommaRest(ts: seq<Token>, left: Expr, c: Cursor): (r: Parsed<Expr>)
    requires Valid(ts, c)
    ensures Valid(ts, r.cur) && Moves(c, r.cur)
    ensures !Check(ts, c.pos, COMMA) ==> r == Ok(left, c)
    ensures r.Ok? ==> !Check(ts, r.cur.pos, COMMA)
    ensures r.Ok? && Shaped(left) && Prec(left) >= 1 ==> Shaped(r.value)
    ensures r.Err? ==> |r.cur.errors| > |c.errors|
    decreases |ts| - c.pos, 14
  {
    if Check(ts, c.pos, COMMA) then
      match ParseComma(ts, Advance(ts, c))
      case Err(d) => Err(d)
      case Ok(rest, d) => CommaRest(ts, Comma(left, rest), d)
    else Ok(left, c)
  }

  /** `expression()`: an assignment, optionally the condition of a
      right-nested ternary. */
  function ParseExpression(ts: seq<Token>, c: Cursor): (r: Parsed<Expr>)
    requires Valid(ts, c)
    ensures Valid(ts, r.cur) && Moves(c, r.cur)
    ensures r.Ok? ==> r.cur.pos > c.pos && Shaped(r.value) && Prec(r.value) >= 1
    ensures r.Ok? ==> !Check(ts, r.cur.pos, QUESTION_MARK)
    ensures r.Err? ==> |r.cur.errors| > |c.errors|
    decreases |ts| - c.pos, 13
  {
    match ParseAssignment(ts, c)
    case Err(d) => Err(d)
    case Ok(e, d) => ExpressionRest(ts, e, d)
  }

  /** The `while (match(QUESTION_MARK))` loop of `expression()`. */
  function ExpressionRest(ts: seq<Token>, cond: Expr, c: Cursor): (r: Parsed<Expr>)
    requires Valid(ts, c)
    ensures Valid(ts, r.cur) && Moves(c, r.cur)
    ensures !Check(ts, c.pos, QUESTION_MARK) ==> r == Ok(cond, c)
    ensures r.Ok? ==> !Check(ts, r.cur.pos, QUESTION_MARK)
    ensures r.Ok? && Shaped(cond) && Prec(cond) >= 2 ==> Shaped(r.value) && Prec(r.value) >= 1
    ensures r.Err? ==> |r.cur.errors| > |c.errors|
    decreases |ts| - c.pos, 12
  {
    if Check(ts, c.pos, QUESTION_MARK) then
      match ParseExpression(ts, Advance(ts, c))
      case Err(d) => Err(d)
      case Ok(thenExpr, d) => TernaryElse(ts, cond, thenExpr, d)
    else Ok(cond, c)
  }

  /** The rest of one ternary, from the `:` after its then-branch; the
      loop then continues with the whole ternary as the next condition. */
  function TernaryElse(ts: seq<Token>, cond: Expr, thenExpr: Expr, d: Cursor): (r: Parsed<Expr>)
    requires Valid(ts, d)
    ensures Valid(ts, r.cur) && Moves(d, r.cur)
    ensures !Check(ts, d.pos, COLON) ==> r == Err(Report(d, ts[d.pos], "Expect a colon."))
    ensures r.Ok? ==> !Check(ts, r.cur.pos, QUESTION_MARK)
    ensures r.Ok? && Shaped(cond) && Prec(cond) >= 2 && Shaped(thenExpr) && Prec(thenExpr) >= 1 ==>
      Shaped(r.value) && Prec(r.value) >= 1
    ensures r.Err? ==> |r.cur.errors| > |d.errors|
    decreases |ts| - d.pos, 12
  {
    if !Check(ts, d.pos, COLON) then Err(Report(d, ts[d.pos], "Expect a colon."))
    else
      match ParseExpression(ts, Advance(ts, d))
      case Err(e) => Err(e)
      case Ok(elseExpr, e) => ExpressionRest(ts, Ternary(cond, thenExpr, elseExpr), e)
  }

  /** `assignment()`: right-associative; a non-variable target is reported
      without throwing, and the target expression is kept. The new node's
      id is the index of its `=` token. */
  function ParseAssignment(ts: seq<Token>, c: Cursor): (r: Parsed<Expr>)
    requires Valid(ts, c)
    ensures Valid(ts, r.cur) && Moves(c, r.cur)
    ensures r.Ok? ==> r.cur.pos > c.pos && Shaped(r.value) && Prec(r.value) >= 2
    ensures r.Err? ==> |r.cur.errors| > |c.errors|
    decreases |ts| - c.pos, 11
  {
    match ParseBinary(ts, 3, c)
    case Err(d) => Err(d)
    case Ok(target, d) =>
      if Check(ts, d.pos, EQUAL) then AssignValue(ts, target, d)
      else Ok(target, d)
  }

  /** The value after an assignment's `=`, itself an `assignment()`. The
      target must be a variable; any other target is reported, and kept. */
  function AssignValue(ts: seq<Token>, target: Expr, d: Cursor): (r: Parsed<Expr>)
    requires Valid(ts, d) && Check(ts, d.pos, EQUAL) && Shaped(target) && Prec(target) >= 3
    ensures Valid(ts, r.cur) && Moves(d, r.cur)
    ensures r.Ok? ==> r.cur.pos > d.pos && Shaped(r.value) && Prec(r.value) >= 2
    ensures r.Ok? && target.Variable? ==> r.value.Assign? && r.value.name == target.name && r.value.id == d.pos
    ensures r.Ok? && !target.Variable? ==>
      r.value == target && |r.cur.errors| > 0 &&
      r.cur.errors[|r.cur.errors| - 1] == ParseError(ts[d.pos], "Invalid assignment target.")
    ensures r.Err? ==> |r.cur.errors| > |d.errors|
    decreases |ts| - d.pos - 1, 12
  {
    match ParseAssignment(ts, Advance(ts, d))
    case Err(e) => Err(e)
    case Ok(value, e) =>
      if target.Variable? then Ok(Assign(target.name, value, d.pos), e)
      else Ok(target, Report(e, ts[d.pos], "Invalid assignment target."))
  }

  /** `equality()`, `comparison()`, `addition()` and `multiplication()` for
      levels 3 to 6, and `unary()` for level 7: a left-associative chain of
      operators of one level over operands of the next level. */
  function ParseBinary(ts: seq<Token>, level: nat, c: Cursor): (r: Parsed<Expr>)
    requires Valid(ts, c) && 3 <= level <= 7
    ensures Valid(ts, r.cur) && Moves(c, r.cur)
    ensures r.Ok? ==> r.cur.pos > c.pos && Shaped(r.value) && Prec(r.value) >= level
    ensures r.Ok? && level < 7 ==> !AtLevel(ts, r.cur.pos, level)
    ensures r.Err? ==> |r.cur.errors| > |c.errors|
    decreases |ts| - c.pos, 2 * (8 - level)
  {
    if level == 7 then ParseUnary(ts, c)
    else
      match ParseBinary(ts, level + 1, c)
      case Err(d) => Err(d)
      case Ok(left, d) => BinaryRest(ts, level, left, d)
  }

  /** The `while (match(...))` loop of one binary level. */
  function BinaryRest(ts: seq<Token>, level: nat, left: Expr, c: Cursor): (r: Parsed<Expr>)
    requires Valid(ts, c) && 3 <= level <= 6 && Shaped(left) && Prec(left) >= level
    ensures Valid(ts, r.cur) && Moves(c, r.cur)
    ensures !AtLevel(ts, c.pos, level) ==> r == Ok(left, c)
    ensures r.Ok? ==> Shaped(r.value) && Prec(r.value) >= level
    ensures r.Ok? ==> !AtLevel(ts, r.cur.pos, level)
    ensures r.Err? ==> |r.cur.errors| > |c.errors|
    decreases |ts| - c.pos, 2 * (8 - level) - 1
  {
    if AtLevel(ts, c.pos, level) then
      var op := ts[c.pos];
      match ParseBinary(ts, level + 1, Advance(ts, c))
      case Err(d) => Err(d)
      case Ok(right, d) => BinaryRest(ts, level, Binary(left, op, right), d)
    else Ok(left, c)
  }

  /** `unary()`: prefix `!` and `-`, nested to the right. */
  function ParseUnary(ts: seq<Token>, c: Cursor): (r: Parsed<Expr>)
    requires Valid(ts, c)
    ensures Valid(ts, r.cur) && Moves(c, r.cur)
    ensures r.Ok? ==> r.cur.pos > c.pos && Shaped(r.value) && Prec(r.value) >= 7
    ensures r.Err? ==> |r.cur.errors| > |c.errors|
    decreases |ts| - c.pos, 1
  {
    if CheckAny(ts, c.pos, [BANG, MINUS]) then
      match ParseUnary(ts, Advance(ts, c))
      case Err(d) => Err(d)
      case Ok(right, d) => Ok(Unary(ts[c.pos], right), d)
    else ParsePrimary(ts, c)
  }

  /** The literal value a NUMBER or STRING token carries. */
  function LiteralOf(lit: TokenLiteral): LitValue {
    match lit
    case NoLiteral => LNil
    case NumLit(n) => LNum(n)
    case StrLit(s) => LStr(s)
  }

  /** `primary()`: literals, variables (id = index of the name token), tag
      lexemes, and parenthesized expressions. */
  function ParsePrimary(ts: seq<Token>, c: Cursor): (r: Parsed<Expr>)
    requires Valid(ts, c)
    ensures Valid(ts, r.cur) && Moves(c, r.cur)
    ensures r.Ok? ==> r.cur.pos > c.pos && Shaped(r.value) && Prec(r.value) == 8
    ensures r.Err? ==> |r.cur.errors| > |c.errors|
    ensures var t := ts[c.pos]; var next := c.(pos := c.pos + 1);
      && (t.kind == FALSE ==> r == Ok(Literal(LBool(false)), next))
      && (t.kind == TRUE ==> r == Ok(Literal(LBool(true)), next))
      && (t.kind == NIL ==> r == Ok(Literal(LNil), next))
      && (t.kind in {NUMBER, STRING} ==> r == Ok(Literal(LiteralOf(t.literal)), next))
      && (t.kind == IDENTIFIER ==> r == Ok(Variable(t, c.pos), next))
      && (t.kind == TAG ==> r == Ok(Literal(LStr(t.lexeme)), next))
      && (t.kind == LEFT_PAREN ==> r == ParseGroup(ts, c))
      && (t.kind !in {FALSE, TRUE, NIL, NUMBER, STRING, IDENTIFIER, TAG, LEFT_PAREN} ==>
            r == Err(Report(c, t, "Expect expression.")))
    decreases |ts| - c.pos, 0
  {
    var t := ts[c.pos];
    match t.kind
    case FALSE => Ok(Literal(LBool(false)), Advance(ts, c))
    case TRUE => Ok(Literal(LBool(true)), Advance(ts, c))
    case NIL => Ok(Literal(LNil), Advance(ts, c))
    case NUMBER => Ok(Literal(LiteralOf(t.literal)), Advance(ts, c))
    case STRING => Ok(Literal(LiteralOf(t.literal)), Advance(ts, c))
    case IDENTIFIER => Ok(Variable(t, c.pos), Advance(ts, c))
    case TAG => Ok(Literal(LStr(t.lexeme)), Advance(ts, c))
    case LEFT_PAREN => ParseGroup(ts, c)
    case _ => Err(Report(c, t, "Expect expression."))
  }

  /** The parenthesized branch of `primary()`: `(`, an expression, and the
      `)` it must be followed by. */
  function ParseGroup(ts: seq<Token>, c: Cursor): (r: Parsed<Expr>)
    requires Valid(ts, c) && Check(ts, c.pos, LEFT_PAREN)
    ensures Valid(ts, r.cur) && Moves(c, r.cur)
    ensures r.Ok? ==> r.cur.pos > c.pos && r.value.Grouping? && Shaped(r.value) && Prec(r.value) == 8
    ensures r.Err? ==> |r.cur.errors| > |c.errors|
    decreases |ts| - c.pos - 1, 14
  {
    match ParseExpression(ts, Advance(ts, c))
    case Err(d) => Err(d)
    case Ok(inner, d) =>
      match Consume(ts, d, RIGHT_PAREN, "Expect ')' after expression.")
      case Err(e) => Err(e)
      case Ok(_, e) => Ok(Grouping(inner), e)
  }

  // ---------------------------------------------------------------------
  // Declarations and statements

  /** The token kinds `synchronize` stops in front of. */
  const StatementStarts: set<TokenType> := {CLASS, FUN, VAR, FOR, IF, WHILE, PRINT, RETURN}

  /** A position where `synchronize` may stop: at EOF, just after a `;`, or
      in front of a statement keyword. */
  predicate SyncPoint(ts: seq<Token>, p: nat)
    requires p < |ts|
  {
    AtEnd(ts, p) || (p > 0 && ts[p - 1].kind == SEMICOLON) || ts[p].kind in StatementStarts
  }

  /** `synchronize()`: skip at least one token (unless at EOF), then stop
      at the first sync point. */
  function Synchronize(ts: seq<Token>, c: Cursor): (d: Cursor)
    requires Valid(ts, c)
    ensures Valid(ts, d) && d.errors == c.errors && SyncPoint(ts, d.pos)
    ensures AtEnd(ts, c.pos) ==> d.pos == c.pos
    ensures !AtEnd(ts, c.pos) ==> d.pos > c.pos
    ensures forall q :: c.pos < q < d.pos ==> !SyncPoint(ts, q)
  {
    SyncLoop(ts, Advance(ts, c))
  }

  /** The `while (!isAtEnd())` loop of `synchronize()`. */
  function SyncLoop(ts: seq<Token>, c: Cursor): (d: Cursor)
    requires Valid(ts, c) && (c.pos > 0 || AtEnd(ts, c.pos))
    ensures Valid(ts, d) && d.errors == c.errors && SyncPoint(ts, d.pos)
    ensures c.pos <= d.pos
    ensures forall q :: c.pos <= q < d.pos ==> !SyncPoint(ts, q)
    decreases |ts| - c.pos
  {
    if AtEnd(ts, c.pos) then c
    else if ts[c.pos - 1].kind == SEMICOLON then c
    else if ts[c.pos].kind in StatementStarts then c
    else SyncLoop(ts, Advance(ts, c))
  }

  /** `declaration()`: a thrown error becomes a `NullStmt` entry and the
      cursor is synchronized. A declaration started before EOF consumes at
      least one token, which is what makes `parse()` terminate. */
  function ParseDeclaration(ts: seq<Token>, c: Cursor): (r: (Stmt, Cursor))
    requires Valid(ts, c)
    ensures Valid(ts, r.1) && Moves(c, r.1)
    ensures !AtEnd(ts, c.pos) ==> r.1.pos > c.pos
    ensures ShapedStmt(r.0)
    ensures r.0.NullStmt? <==> TryDeclaration(ts, c).Err?
    ensures r.0.NullStmt? ==> |r.1.errors| > |c.errors| && SyncPoint(ts, r.1.pos)
    decreases |ts| - c.pos, 6
  {
    match TryDeclaration(ts, c)
    case Ok(s, d) => (s, d)
    case Err(d) => (NullStmt, Synchronize(ts, d))
  }

  /** The `try` body of `declaration()`. */
  function TryDeclaration(ts: seq<Token>, c: Cursor): (r: Parsed<Stmt>)
    requires Valid(ts, c)
    ensures Valid(ts, r.cur) && Moves(c, r.cur)
    ensures r.Ok? ==> r.cur.pos > c.pos && ShapedStmt(r.value) && !r.value.NullStmt?
    ensures r.Err? ==> |r.cur.errors| > |c.errors|
    decreases |ts| - c.pos, 5
  {
    if Check(ts, c.pos, VAR) then ParseVarDeclaration(ts, Advance(ts, c))
    else ParseStatement(ts, c)
  }

  /** `statement()`: print, block, or expression statement. */
  function ParseStatement(ts: seq<Token>, c: Cursor): (r: Parsed<Stmt>)
    requires Valid(ts, c)
    ensures Valid(ts, r.cur) && Moves(c, r.cur)
    ensures r.Ok? ==> r.cur.pos > c.pos && ShapedStmt(r.value) && !r.value.NullStmt?
    ensures r.Err? ==> |r.cur.errors| > |c.errors|
    decreases |ts| - c.pos, 4
  {
    if Check(ts, c.pos, PRINT) then
      SemicolonAfter(ts, ParseComma(ts, Advance(ts, c)), "Expect ';' after value.", true)
    else if Check(ts, c.pos, LEFT_BRACE) then
      match BlockItems(ts, [], Advance(ts, c))
      case Err(d) => Err(d)
      case Ok(ss, d) => Ok(Block(ss), d)
    else
      SemicolonAfter(ts, ParseComma(ts, c), "Expect ';' after expression.", false)
  }

  /** The tail of `printStatement()` and `expressionStatement()`. */
  function SemicolonAfter(ts: seq<Token>, e: Parsed<Expr>, message: string, isPrint: bool): (r: Parsed<Stmt>)
    requires Valid(ts, e.cur) && (e.Ok? ==> Shaped(e.value))
    ensures Valid(ts, r.cur) && Moves(e.cur, r.cur)
    ensures r.Ok? ==> e.Ok? && r.cur.pos == e.cur.pos + 1 && ShapedStmt(r.value)
    ensures r.Ok? ==> r.value == (if isPrint then Print(e.value) else Expression(e.value))
    ensures r.Err? && e.Ok? ==> |r.cur.errors| > |e.cur.errors|
    ensures e.Err? ==> r == Err(e.cur)
  {
    match e
    case Err(d) => Err(d)
    case Ok(value, d) =>
      match Consume(ts, d, SEMICOLON, message)
      case Err(f) => Err(f)
      case Ok(_, f) => Ok(if isPrint then Print(value) else Expression(value), f)
  }

  /** `block()`: declarations up to the closing brace, which must be there. */
  function BlockItems(ts: seq<Token>, acc: seq<Stmt>, c: Cursor): (r: Parsed<seq<Stmt>>)
    requires Valid(ts, c) && forall i :: 0 <= i < |acc| ==> ShapedStmt(acc[i])
    ensures Valid(ts, r.cur) && Moves(c, r.cur)
    ensures r.Ok? ==> r.cur.pos > c.pos && acc <= r.value
    ensures r.Ok? ==> forall i :: 0 <= i < |r.value| ==> ShapedStmt(r.value[i])
    ensures r.Err? ==> |r.cur.errors| > |c.errors|
    decreases |ts| - c.pos, 7
  {
    if !Check(ts, c.pos, RIGHT_BRACE) && !AtEnd(ts, c.pos) then
      var (s, d) := ParseDeclaration(ts, c);
      BlockItems(ts, acc + [s], d)
    else
      match Consume(ts, c, RIGHT_BRACE, "Expect '}' after block.")
      case Err(d) => Err(d)
      case Ok(_, d) => Ok(acc, d)
  }

  /** `varDeclaration()`, entered after the `var` keyword. */
  function ParseVarDeclaration(ts: seq<Token>, c: Cursor): (r: Parsed<Stmt>)
    requires Valid(ts, c)
    ensures Valid(ts, r.cur) && Moves(c, r.cur)
    ensures r.Ok? ==> r.cur.pos > c.pos && ShapedStmt(r.value) && r.value.Var? && r.value.name == ts[c.pos]
    ensures r.Err? ==> |r.cur.errors| > |c.errors|
    decreases |ts| - c.pos, 3
  {
    match Consume(ts, c, IDENTIFIER, "Expect variable name.")
    case Err(d) => Err(d)
    case Ok(name, d) =>
      var init :=
        if Check(ts, d.pos, EQUAL) then
          match ParseExpression(ts, Advance(ts, d))
          case Err(e) => Err(e)
          case Ok(value, e) => Ok(Some(value), e)
        else Ok(None, d);
      match init
      case Err(e) => Err(e)
      case Ok(initializer, e) =>
        match Consume(ts, e, SEMICOLON, "Expect ';' after variable declaration.")
        case Err(f) => Err(f)
        case Ok(_, f) => Ok(Var(name, initializer), f)
  }

  /** An identifier followed by a token that is no multiplicative
      operator is a complete multiplicative operand. */
  lemma OperandIsVariable(ts: seq<Token>, c: Cursor)
    requires Valid(ts, c) && ts[c.pos].kind == IDENTIFIER
    requires c.pos + 1 < |ts| && ts[c.pos + 1].kind != SLASH && ts[c.pos + 1].kind != STAR
    ensures ParseBinary(ts, 6, c) == Ok(Variable(ts[c.pos], c.pos), c.(pos := c.pos + 1))
  {
    var v, d := Variable(ts[c.pos], c.pos), c.(pos := c.pos + 1);
    assert ParseBinary(ts, 7, c) == Ok(v, d) by {
      assert !CheckAny(ts, c.pos, [BANG, MINUS]);
    }
    assert !AtLevel(ts, d.pos, 6);
  }

  /** The additive level of `a - b - c` folds to the left. */
  lemma SubtractionChain(ts: seq<Token>, c: Cursor)
    requires |ts| == 6 && c.pos == 0
    requires ts[0].kind == IDENTIFIER && ts[2].kind == IDENTIFIER && ts[4].kind == IDENTIFIER
    requires ts[1].kind == MINUS && ts[3].kind == MINUS && ts[5].kind == EOF
    ensures ParseBinary(ts, 5, c)
      == Ok(Binary(Binary(Variable(ts[0], 0), ts[1], Variable(ts[2], 2)), ts[3], Variable(ts[4], 4)),
            c.(pos := 5))
  {
    var ab := Binary(Variable(ts[0], 0), ts[1], Variable(ts[2], 2));
    var abc := Binary(ab, ts[3], Variable(ts[4], 4));
    OperandIsVariable(ts, c);
    OperandIsVariable(ts, c.(pos := 2));
    OperandIsVariable(ts, c.(pos := 4));
    assert Shaped(ab) && Prec(ab) == 5;
    assert Shaped(abc) && Prec(abc) == 5;
    assert BinaryRest(ts, 5, ab, c.(pos := 3)) == Ok(abc, c.(pos := 5));
    assert BinaryRest(ts, 5, Variable(ts[0], 0), c.(pos := 1)) == Ok(abc, c.(pos := 5));
  }

  /** `a - b - c` parses as `(a - b) - c`. */
  lemma SubtractionGroupsLeft(ts: seq<Token>, c: Cursor)
    requires |ts| == 6 && c.pos == 0
    requires ts[0].kind == IDENTIFIER && ts[2].kind == IDENTIFIER && ts[4].kind == IDENTIFIER
    requires ts[1].kind == MINUS && ts[3].kind == MINUS && ts[5].kind == EOF
    ensures ParseComma(ts, c)
      == Ok(Binary(Binary(Variable(ts[0], 0), ts[1], Variable(ts[2], 2)), ts[3], Variable(ts[4], 4)),
            c.(pos := 5))
  {
    var abc := Binary(Binary(Variable(ts[0], 0), ts[1], Variable(ts[2], 2)), ts[3], Variable(ts[4], 4));
    var c5 := c.(pos := 5);
    SubtractionChain(ts, c);
    assert ParseBinary(ts, 4, c) == Ok(abc, c5);
    assert ParseBinary(ts, 3, c) == Ok(abc, c5);
    assert ParseAssignment(ts, c) == Ok(abc, c5);
    assert ParseExpression(ts, c) == Ok(abc, c5);
  }

  /** `parse()`: declarations until EOF, with the errors logged on the way.
      Every declaration consumes a token, so there are fewer statements
      than tokens. */
  function Parse(ts: seq<Token>): (r: (seq<Stmt>, seq<ParseError>))
    requires WellEnded(ts)
    ensures |r.0| < |ts|
    ensures forall i :: 0 <= i < |r.0| ==> ShapedStmt(r.0[i])
  {
    var (ss, c) := ParseFrom(ts, [], Cursor(0, []));
    (ss, c.errors)
  }

  /** The `while (!isAtEnd())` loop of `parse()`. */
  function ParseFrom(ts: seq<Token>, acc: seq<Stmt>, c: Cursor): (r: (seq<Stmt>, Cursor))
    requires Valid(ts, c) && forall i :: 0 <= i < |acc| ==> ShapedStmt(acc[i])
    ensures Valid(ts, r.1) && Moves(c, r.1) && AtEnd(ts, r.1.pos)
    ensures acc <= r.0 && |r.0| - |acc| <= r.1.pos - c.pos
    ensures forall i :: 0 <= i < |r.0| ==> ShapedStmt(r.0[i])
    decreases |ts| - c.pos
  {
    if AtEnd(ts, c.pos) then (acc, c)
    else
      var (s, d) := ParseDeclaration(ts, c);
      ParseFrom(ts, acc + [s], d)
  }

}
