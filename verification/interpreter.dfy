/** The tree-walking evaluator of src/jlox/visitors/interpreter.ts.

    The interpreter's mutable state (the environment arena, the current
    environment handle, the instance heap and the printed lines) is a
    `State` threaded through pure functions. A thrown JavaScript error is a
    `Failure` carried out together with the state reached when it was
    thrown. `ExitState.BREAK` is the `Broke` outcome of a statement.

    Expressions are evaluated by structural recursion; statements take a
    `fuel` budget that each `while` iteration spends, so a loop that would
    not stop ends in `OutOfFuel`. The host supplies what is outside the
    model: number-to-string conversion and the tag data source. */
module Interpreter {
  import opened Basics
  import opened Tokens
  import opened Ast
  import opened Values
  import Environment
  import opened Instances

  datatype Host = Host(numText: real -> string, tagValue: string -> Value)

  datatype State = State(store: Environment.Store<Value>, env: nat, heap: Heap, out: seq<string>)

  /** The current environment exists and every link points backwards. */
  predicate Good(st: State) {
    Environment.Linked(st.store) && st.env < |st.store|
  }

  datatype Failure =
    | RuntimeError(token: Token, message: string)
      /** The `Return` error class, which carries the returned value. */
    | ReturnSignal(value: Value)
      /** A JavaScript TypeError: a missing visitor method, or a method
          called on `null`/`undefined`. */
    | TypeError(message: string)
      /** A result that depends on IEEE arithmetic or JavaScript coercion. */
    | Unmodelled(what: string)
    | OutOfFuel

  datatype Evaluated = Val(value: Value, st: State) | Thrown(failure: Failure, st: State)

  datatype Executed = Normal(st: State) | Broke(st: State) | Threw(failure: Failure, st: State)

  /** The result of applying an operator to values already computed. */
  datatype Applied = Gives(value: Value) | Fails(failure: Failure)

  /** An expression may overwrite bindings but changes nothing else: no
      frame is added, no link or key changes, the environment handle, the
      heap and the output stay. */
  predicate ExprFrame(st: State, st': State) {
    st'.env == st.env && st'.heap == st.heap && st'.out == st.out &&
    |st'.store| == |st.store| &&
    forall i :: 0 <= i < |st.store| ==>
      st'.store[i].enclosing == st.store[i].enclosing &&
      st'.store[i].values.Keys == st.store[i].values.Keys
  }

  /** A statement returns to the environment it started in; existing frames
      keep their links; the store and heap only grow; output is appended. */
  predicate StmtFrame(st: State, st': State) {
    st'.env == st.env && |st'.store| >= |st.store| && |st'.heap| >= |st.heap| &&
    st.out <= st'.out &&
    forall i :: 0 <= i < |st.store| ==> st'.store[i].enclosing == st.store[i].enclosing
  }

  function LitToValue(lit: LitValue): (v: Value)
    ensures lit.LNil? <==> v == Nil
    ensures lit.LBool? ==> v == Bool(lit.b)
    ensures lit.LNum? ==> v == Num(lit.n)
    ensures lit.LStr? ==> v == Str(lit.s)
  {
    match lit
    case LNil => Nil
    case LBool(b) => Bool(b)
    case LNum(n) => Num(n)
    case LStr(s) => Str(s)
  }

  /** The TypeError of calling `toString()` on `null` or `undefined`. */
  function NoToString(v: Value): (m: string)
    requires v == Nil || v == Undef
  {
    "Cannot read properties of " + (if v == Nil then "null" else "undefined") + " (reading 'toString')"
  }

  /** `+`: numeric sum of two numbers, else the concatenation of both
      operands' `toString()` when either is a string, else an error. */
  function Plus(op: Token, l: Value, r: Value, numText: real -> string): (res: Applied)
    requires op.kind == PLUS
    ensures l.Num? && r.Num? ==> res.Gives? && res.value == Num(l.n + r.n)
    ensures l.Str? && r.Str? ==> res.Gives? && res.value == Str(l.s + r.s)
    ensures (l.Str? || r.Str?) && ToText(l, numText).Some? && ToText(r, numText).Some? ==>
      res.Gives? && res.value == Str(ToText(l, numText).value + ToText(r, numText).value)
    ensures (l.Str? || r.Str?) && (l == Nil || l == Undef || r == Nil || r == Undef) ==>
      res.Fails? && res.failure.TypeError?
    ensures !(l.Num? && r.Num?) && !l.Str? && !r.Str? ==>
      res.Fails? && res.failure == RuntimeError(op, "Operands must be two numbers or two strings.")
  {
    if l.Num? && r.Num? then Gives(Num(l.n + r.n))
    else if l.Str? || r.Str? then
      if l == Nil || l == Undef then Fails(TypeError(NoToString(l)))
      else if r == Nil || r == Undef then Fails(TypeError(NoToString(r)))
      else Gives(Str(ToText(l, numText).value + ToText(r, numText).value))
    else Fails(RuntimeError(op, "Operands must be two numbers or two strings."))
  }

  /** The binary operators after both operands are evaluated. Comparisons
      and `-`, `*`, `/` are exact on two numbers; on anything else, and for
      division by zero, the result is IEEE- or coercion-dependent. An
      operator token the parser never produces gives `null`. */
  function BinaryOp(op: Token, l: Value, r: Value, numText: real -> string): (res: Applied)
    ensures op.kind == EQUAL_EQUAL ==> res == Gives(Bool(IsEqual(l, r)))
    ensures op.kind == BANG_EQUAL ==> res == Gives(Bool(!IsEqual(l, r)))
    ensures op.kind == PLUS ==> res == Plus(op, l, r, numText)
    ensures l.Num? && r.Num? ==>
      (op.kind == GREATER ==> res.Gives? && res.value == Bool(l.n > r.n)) &&
      (op.kind == GREATER_EQUAL ==> res.Gives? && res.value == Bool(l.n >= r.n)) &&
      (op.kind == LESS ==> res.Gives? && res.value == Bool(l.n < r.n)) &&
      (op.kind == LESS_EQUAL ==> res.Gives? && res.value == Bool(l.n <= r.n)) &&
      (op.kind == MINUS ==> res.Gives? && res.value == Num(l.n - r.n)) &&
      (op.kind == STAR ==> res.Gives? && res.value == Num(l.n * r.n)) &&
      (op.kind == SLASH && r.n != 0.0 ==> res.Gives? && res.value == Num(l.n / r.n))
  {
    var numeric := l.Num? && r.Num?;
    match op.kind
    case GREATER => if numeric then Gives(Bool(l.n > r.n)) else Fails(Unmodelled("comparison of non-numbers"))
    case GREATER_EQUAL => if numeric then Gives(Bool(l.n >= r.n)) else Fails(Unmodelled("comparison of non-numbers"))
    case LESS => if numeric then Gives(Bool(l.n < r.n)) else Fails(Unmodelled("comparison of non-numbers"))
    case LESS_EQUAL => if numeric then Gives(Bool(l.n <= r.n)) else Fails(Unmodelled("comparison of non-numbers"))
    case BANG_EQUAL => Gives(Bool(!IsEqual(l, r)))
    case EQUAL_EQUAL => Gives(Bool(IsEqual(l, r)))
    case MINUS => if numeric then Gives(Num(l.n - r.n)) else Fails(Unmodelled("arithmetic on non-numbers"))
    case PLUS => Plus(op, l, r, numText)
    case SLASH =>
      if numeric && r.n != 0.0 then Gives(Num(l.n / r.n))
      else Fails(Unmodelled("division by zero or of non-numbers"))
    case STAR => if numeric then Gives(Num(l.n * r.n)) else Fails(Unmodelled("arithmetic on non-numbers"))
    case _ => Gives(Nil)
  }

  /** An operator's result, paired with the state reached after its operands. */
  function At(res: Applied, st: State): (r: Evaluated)
    ensures r.st == st
    ensures r.Val? <==> res.Gives?
    ensures r.Val? ==> r.value == res.value
    ensures r.Thrown? ==> r.failure == res.failure
  {
    match res
    case Gives(v) => Val(v, st)
    case Fails(f) => Thrown(f, st)
  }

  /** The unary operators: `!` negates truthiness, `-` negates a number. */
  function UnaryOp(op: Token, v: Value): (res: Applied)
    ensures op.kind == BANG ==> res == Gives(Bool(!IsTruthy(v)))
    ensures op.kind == MINUS && v.Num? ==> res == Gives(Num(-v.n))
    ensures op.kind != BANG && op.kind != MINUS ==> res == Gives(Nil)
  {
    match op.kind
    case BANG => Gives(Bool(!IsTruthy(v)))
    case MINUS => if v.Num? then Gives(Num(-v.n)) else Fails(Unmodelled("negation of a non-number"))
    case _ => Gives(Nil)
  }

  /** The TypeError of dispatching to a visitor method the interpreter
      lacks. */
  function NoVisitor(name: string): (f: Failure)
    ensures f.TypeError?
  {
    TypeError("visitor." + name + " is not a function")
  }

  /** `evaluate`. */
  function Eval(e: Expr, st: State, host: Host): (r: Evaluated)
    requires Good(st)
    ensures Good(r.st) && ExprFrame(st, r.st)
    decreases e, 1
  {
    match e
    case Literal(lit) => Val(LitToValue(lit), st)
    case Tag(key) => Val(host.tagValue(key), st)
    case Grouping(inner) => Eval(inner, st, host)
    case Unary(op, right) =>
      (match Eval(right, st, host)
       case Thrown(f, s) => Thrown(f, s)
       case Val(v, s) => At(UnaryOp(op, v), s))
    case Binary(_, _, _) => EvalBinary(e, st, host)
    case Logical(left, op, right) =>
      (match Eval(left, st, host)
       case Thrown(f, s) => Thrown(f, s)
       case Val(v, s) =>
         if (op.kind == OR) == IsTruthy(v) then Val(v, s) else Eval(right, s, host))
    case Ternary(cond, a, b) =>
      (match Eval(cond, st, host)
       case Thrown(f, s) => Thrown(f, s)
       case Val(v, s) => if IsTruthy(v) then Eval(a, s, host) else Eval(b, s, host))
    case Comma(value, right) =>
      (match Eval(right, st, host)
       case Thrown(f, s) => Thrown(f, s)
       case Val(_, s) => Eval(value, s, host))
    case Variable(name, _) =>
      (match Environment.Get(st.store, st.env, name)
       case Found(v) => Val(v, st)
       case Undefined(t, m) => Thrown(RuntimeError(t, m), st))
    case Assign(_, _, _) => EvalAssign(e, st, host)
    case Call(_, _, _) => Thrown(NoVisitor("visitCallExpr"), st)
    case Get(_, _) => Thrown(NoVisitor("visitGetExpr"), st)
    case Set(_, _, _) => Thrown(NoVisitor("visitSetExpr"), st)
    case This(_, _) => Thrown(NoVisitor("visitThisExpr"), st)
    case Super(_, _) => Thrown(NoVisitor("visitSuperExpr"), st)
    case FunctionExpr(_) => Thrown(NoVisitor("visitFunctionExpr"), st)
  }

  /** `visitBinaryExpr`: both operands, left first, then the operator. */
  function EvalBinary(e: Expr, st: State, host: Host): (r: Evaluated)
    requires e.Binary? && Good(st)
    ensures Good(r.st) && ExprFrame(st, r.st)
    decreases e, 0
  {
    match Eval(e.left, st, host)
    case Thrown(f, s) => Thrown(f, s)
    case Val(l, s1) =>
      match Eval(e.right, s1, host)
      case Thrown(f, s) => Thrown(f, s)
      case Val(r, s2) => At(BinaryOp(e.operator, l, r, host.numText), s2)
  }

  /** `visitAssignExpr`: the value, then `assign` through the chain; the
      result is the assigned value. */
  function EvalAssign(e: Expr, st: State, host: Host): (r: Evaluated)
    requires e.Assign? && Good(st)
    ensures Good(r.st) && ExprFrame(st, r.st)
    ensures r.Val? ==> Environment.Get(r.st.store, r.st.env, e.name) == Environment.Found(r.value)
    decreases e, 0
  {
    match Eval(e.value, st, host)
    case Thrown(f, s) => Thrown(f, s)
    case Val(v, s) =>
      match Environment.Assign(s.store, s.env, e.name, v)
      case Unbound(t, m) => Thrown(RuntimeError(t, m), s)
      case Updated(store) =>
        GetAfterAssign(s.store, s.env, e.name, v);
        Val(v, s.(store := store))
  }

  /** After a successful `assign`, `get` of the same name from the same
      environment returns the assigned value. */
  lemma {:induction false} GetAfterAssign(store: Environment.Store<Value>, env: nat, name: Token, v: Value)
    requires Environment.Linked(store) && env < |store|
    requires Environment.Assign(store, env, name, v).Updated?
    ensures Environment.Linked(Environment.Assign(store, env, name, v).store)
    ensures Environment.Get(Environment.Assign(store, env, name, v).store, env, name) == Environment.Found(v)
    decreases env
  {
    var s := Environment.Assign(store, env, name, v).store;
    if name.lexeme !in store[env].values {
      var p := store[env].enclosing.value;
      GetAfterAssign(store, p, name, v);
      assert s == Environment.Assign(store, p, name, v).store;
      assert s[env] == store[env];
    }
  }

  /** Expressions without an assignment leave the state as it was. */
  predicate Pure(e: Expr) {
    match e
    case Grouping(inner) => Pure(inner)
    case Unary(_, right) => Pure(right)
    case Binary(left, _, right) => Pure(left) && Pure(right)
    case Logical(left, _, right) => Pure(left) && Pure(right)
    case Ternary(cond, a, b) => Pure(cond) && Pure(a) && Pure(b)
    case Comma(value, right) => Pure(value) && Pure(right)
    case Assign(_, _, _) => false
    case _ => true
  }

  lemma {:induction false} PureKeepsState(e: Expr, st: State, host: Host)
    requires Good(st) && Pure(e)
    ensures Eval(e, st, host).st == st
  {
    match e
    case Grouping(inner) => PureKeepsState(inner, st, host);
    case Unary(_, right) => PureKeepsState(right, st, host);
    case Binary(left, _, right) =>
      PureKeepsState(left, st, host);
      if Eval(left, st, host).Val? {
        PureKeepsState(right, st, host);
      }
    case Logical(left, _, right) =>
      PureKeepsState(left, st, host);
      PureKeepsState(right, st, host);
    case Ternary(cond, a, b) =>
      PureKeepsState(cond, st, host);
      PureKeepsState(a, st, host);
      PureKeepsState(b, st, host);
    case Comma(value, right) =>
      PureKeepsState(right, st, host);
      PureKeepsState(value, st, host);
    case _ =>
  }

  /** Comma evaluates its `right` field first, for effect, and yields its
      `value` field, which the parser fills with the leftmost operand: when
      the rest of the list has no effect, the comma expression is worth
      exactly its leftmost operand. */
  lemma CommaYieldsLeftmost(value: Expr, right: Expr, st: State, host: Host)
    requires Good(st) && Pure(right) && Eval(right, st, host).Val?
    ensures Eval(Comma(value, right), st, host) == Eval(value, st, host)
  {
    PureKeepsState(right, st, host);
  }

  /** `or` yields its left value when that is truthy and `and` when it is
      falsy, without evaluating the right operand. */
  lemma LogicalShortCircuits(left: Expr, op: Token, right: Expr, st: State, host: Host, v: Value, s: State)
    requires Good(st) && Eval(left, st, host) == Val(v, s)
    requires (op.kind == OR) == IsTruthy(v)
    ensures Eval(Logical(left, op, right), st, host) == Val(v, s)
  {
  }

  /** Otherwise the result is the right operand's, evaluated in the state the
      left one left behind, never a coerced boolean. */
  lemma LogicalYieldsRight(left: Expr, op: Token, right: Expr, st: State, host: Host, v: Value, s: State)
    requires Good(st) && Eval(left, st, host) == Val(v, s)
    requires (op.kind == OR) != IsTruthy(v)
    ensures Good(s) && Eval(Logical(left, op, right), st, host) == Eval(right, s, host)
  {
  }

  /** `!=` is exactly the negation of `==`: same operands, same effects,
      opposite answer. */
  lemma NotEqualNegatesEqual(left: Expr, ne: Token, eq: Token, right: Expr, st: State, host: Host)
    requires Good(st) && ne.kind == BANG_EQUAL && eq.kind == EQUAL_EQUAL
    ensures var a := Eval(Binary(left, ne, right), st, host);
      var b := Eval(Binary(left, eq, right), st, host);
      a.st == b.st && a.Val? == b.Val? &&
      (a.Val? ==> a.value.Bool? && b.value.Bool? && a.value.b == !b.value.b) &&
      (a.Thrown? ==> a.failure == b.failure)
  {
    var e1 := Binary(left, ne, right);
    var e2 := Binary(left, eq, right);
    assert Eval(e1, st, host) == EvalBinary(e1, st, host);
    assert Eval(e2, st, host) == EvalBinary(e2, st, host);
  }

  // ---------------------------------------------------------------------
  // Statements

  /** `execute`. */
  function Exec(s: Stmt, st: State, host: Host, fuel: nat): (r: Executed)
    requires Good(st)
    ensures Good(r.st) && StmtFrame(st, r.st)
    ensures s.While? ==> !r.Broke?
    decreases fuel, s, 1
  {
    match s
    case Expression(e) =>
      (match Eval(e, st, host)
       case Thrown(f, st1) => Threw(f, st1)
       case Val(_, st1) => Normal(st1))
    case Print(e) =>
      (match Eval(e, st, host)
       case Thrown(f, st1) => Threw(f, st1)
       case Val(v, st1) => Normal(st1.(out := st1.out + [Stringify(v, host.numText)])))
    case Var(name, init) => ExecVar(name, init, st, host)
    case Block(ss) => ExecBlock(ss, st.(store := Environment.NewChild(st.store, st.env)), |st.store|, host, fuel)
    case If(_, _, _) => ExecIf(s, st, host, fuel)
    case While(_, _) => Loop(s, st, host, fuel)
    case Break => Broke(st)
    case FunctionStmt(_) => Threw(NoVisitor("visitFunctionStmt"), st)
    case Return(_, _) => Threw(NoVisitor("visitReturnStmt"), st)
    case Class(_, _, _) => Threw(NoVisitor("visitClassStmt"), st)
    case NullStmt => Threw(TypeError("Cannot read properties of null (reading 'accept')"), st)
  }

  /** `visitVarStmt`: the initializer's value, or nil without one, is
      defined in the current environment. */
  function ExecVar(name: Token, init: Option<Expr>, st: State, host: Host): (r: Executed)
    requires Good(st)
    ensures Good(r.st) && StmtFrame(st, r.st) && !r.Broke?
    ensures init.None? ==> r == Normal(st.(store := Environment.Define(st.store, st.env, name.lexeme, Nil)))
    ensures init.Some? && Eval(init.value, st, host).Val? ==>
      var e := Eval(init.value, st, host);
      r == Normal(e.st.(store := Environment.Define(e.st.store, e.st.env, name.lexeme, e.value)))
    ensures r.Normal? ==> Environment.Get(r.st.store, r.st.env, name).Found?
  {
    var e := match init
      case None => Val(Nil, st)
      case Some(x) => Eval(x, st, host);
    match e
    case Thrown(f, st1) => Threw(f, st1)
    case Val(v, st1) =>
      Environment.GetAfterDefine(st1.store, st1.env, name, v);
      Normal(st1.(store := Environment.Define(st1.store, st1.env, name.lexeme, v)))
  }

  /** `visitIfStmt`: the chosen branch's outcome, `Broke` included, is the
      statement's outcome. */
  function ExecIf(s: Stmt, st: State, host: Host, fuel: nat): (r: Executed)
    requires s.If? && Good(st)
    ensures Good(r.st) && StmtFrame(st, r.st)
    decreases fuel, s, 0
  {
    match Eval(s.condition, st, host)
    case Thrown(f, st1) => Threw(f, st1)
    case Val(v, st1) =>
      if IsTruthy(v) then Exec(s.thenBranch, st1, host, fuel)
      else match s.elseBranch
        case Some(e) => Exec(e, st1, host, fuel)
        case None => Normal(st1)
  }

  /** `visitWhileStmt`: iterate while the condition is truthy; a `Broke`
      body ends the loop, which then completes normally. Each iteration
      spends one unit of fuel. */
  function Loop(s: Stmt, st: State, host: Host, fuel: nat): (r: Executed)
    requires s.While? && Good(st)
    ensures Good(r.st) && StmtFrame(st, r.st)
    ensures !r.Broke?
    decreases fuel, s, 0
  {
    if fuel == 0 then Threw(OutOfFuel, st)
    else match Eval(s.condition, st, host)
      case Thrown(f, st1) => Threw(f, st1)
      case Val(v, st1) =>
        if !IsTruthy(v) then Normal(st1)
        else match Exec(s.body, st1, host, fuel - 1)
          case Normal(st2) => Loop(s, st2, host, fuel - 1)
          case Broke(st2) => Normal(st2)
          case Threw(f, st2) => Threw(f, st2)
  }

  /** `executeBlock`: run the statements in environment `env`, stop at the
      first `Broke` and pass it on, and restore the caller's environment on
      every exit, a thrown error included. */
  function ExecBlock(ss: seq<Stmt>, st: State, env: nat, host: Host, fuel: nat): (r: Executed)
    requires Good(st) && env < |st.store|
    ensures Good(r.st) && StmtFrame(st, r.st)
    ensures r == Restore(ExecStmts(ss, st.(env := env), host, fuel), st.env)
    decreases fuel, ss, 2
  {
    Restore(ExecStmts(ss, st.(env := env), host, fuel), st.env)
  }

  /** The `finally` of `executeBlock`: put back the previous environment. */
  function Restore(r: Executed, env: nat): (r': Executed)
    ensures r'.st == r.st.(env := env)
    ensures r'.Normal? == r.Normal? && r'.Broke? == r.Broke? && r'.Threw? == r.Threw?
    ensures r'.Threw? ==> r'.failure == r.failure
  {
    match r
    case Normal(s) => Normal(s.(env := env))
    case Broke(s) => Broke(s.(env := env))
    case Threw(f, s) => Threw(f, s.(env := env))
  }

  /** The loop of `executeBlock`, without the environment switch. */
  function ExecStmts(ss: seq<Stmt>, st: State, host: Host, fuel: nat): (r: Executed)
    requires Good(st)
    ensures Good(r.st) && StmtFrame(st, r.st)
    decreases fuel, ss, 1
  {
    if |ss| == 0 then Normal(st)
    else match Exec(ss[0], st, host, fuel)
      case Normal(st1) => ExecStmts(ss[1..], st1, host, fuel)
      case Broke(st1) => Broke(st1)
      case Threw(f, st1) => Threw(f, st1)
  }

  /** Running two statement lists in sequence is running their
      concatenation: the second runs only when the first completes
      normally, so a `Broke` (or an error) in the first skips all of the
      second. */
  lemma {:induction false} ExecStmtsAppend(ss1: seq<Stmt>, ss2: seq<Stmt>, st: State, host: Host, fuel: nat)
    requires Good(st)
    ensures ExecStmts(ss1 + ss2, st, host, fuel) ==
      match ExecStmts(ss1, st, host, fuel)
      case Normal(st1) => ExecStmts(ss2, st1, host, fuel)
      case other => other
    decreases |ss1|
  {
    if |ss1| == 0 {
      assert ss1 + ss2 == ss2;
    } else {
      assert (ss1 + ss2)[0] == ss1[0];
      assert (ss1 + ss2)[1..] == ss1[1..] + ss2;
      match Exec(ss1[0], st, host, fuel)
      case Normal(st1) => ExecStmtsAppend(ss1[1..], ss2, st1, host, fuel);
      case Broke(_) =>
      case Threw(_, _) =>
    }
  }

  /** A `break` stops a statement list on the spot: whatever follows it is
      never run. */
  lemma BreakSkipsRest(before: seq<Stmt>, after: seq<Stmt>, st: State, host: Host, fuel: nat)
    requires Good(st) && ExecStmts(before, st, host, fuel).Normal?
    ensures ExecStmts(before + [Break] + after, st, host, fuel) == Broke(ExecStmts(before, st, host, fuel).st)
  {
    ExecStmtsAppend(before, [Break] + after, st, host, fuel);
    assert before + [Break] + after == before + ([Break] + after);
    var st1 := ExecStmts(before, st, host, fuel).st;
    assert ExecStmts([Break] + after, st1, host, fuel) == Broke(st1);
  }

  /** A `var` inside a block binds in the block's own frame: after the
      block, looking the name up from the enclosing environment gives what
      it gave before. */
  lemma {:induction false} BlockVarDoesNotLeak(name: Token, st: State, host: Host, fuel: nat, probe: Token)
    requires Good(st)
    ensures Exec(Block([Var(name, None)]), st, host, fuel).Normal?
    ensures Environment.Get(Exec(Block([Var(name, None)]), st, host, fuel).st.store, st.env, probe) ==
      Environment.Get(st.store, st.env, probe)
  {
    var child := Environment.NewChild(st.store, st.env);
    var inner := st.(store := child, env := |st.store|);
    var defined := Environment.Define(child, |st.store|, name.lexeme, Nil);
    assert Exec(Var(name, None), inner, host, fuel) == Normal(inner.(store := defined));
    assert ExecStmts([Var(name, None)], inner, host, fuel) == Normal(inner.(store := defined));
    Environment.ChainKeepsLinks(child, defined, st.env);
    assert defined[..|st.store|] == st.store;
    Environment.GetGrows(st.store, defined, st.env, probe);
  }

  /** `if` hands a `Broke` from the chosen branch to its caller. */
  lemma IfPassesBreakUp(cond: Expr, thenBranch: Stmt, elseBranch: Option<Stmt>, st: State, host: Host, fuel: nat)
    requires Good(st) && Eval(cond, st, host).Val? && IsTruthy(Eval(cond, st, host).value)
    requires Exec(thenBranch, Eval(cond, st, host).st, host, fuel).Broke?
    ensures Exec(If(cond, thenBranch, elseBranch), st, host, fuel).Broke?
  {
  }

  /** A `while` whose body breaks on its first iteration runs the body once
      and completes normally. */
  lemma WhileAbsorbsBreak(cond: Expr, body: Stmt, st: State, host: Host, fuel: nat, v: Value, st1: State, st2: State)
    requires Good(st) && fuel > 0
    requires Eval(cond, st, host) == Val(v, st1) && IsTruthy(v)
    requires Good(st1) && Exec(body, st1, host, fuel - 1) == Broke(st2)
    ensures Exec(While(cond, body), st, host, fuel) == Normal(st2)
  {
  }
}
