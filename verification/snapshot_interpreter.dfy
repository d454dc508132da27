/** The evaluator of the expression-only snapshot,
    src/pages/jlox/visitors/interpreter.ts. It has no environment and no
    statements: an expression evaluates to a value or throws. Its
    operators are those of the main interpreter (the same `switch`
    branches, the same checks and the same messages), so the model reuses
    `Interpreter.UnaryOp` and `Interpreter.BinaryOp`, and `EvalAgrees`
    shows that on every snapshot tree the main interpreter computes the
    same result and leaves its state alone. */
module SnapshotInterpreter {
  import opened Basics
  import opened Tokens
  import opened Ast
  import opened Values
  import opened SnapshotAst
  import TopLevel
  import opened Interpreter

  /** The values a snapshot expression can produce: those of its literals
      and of its operators. */
  predicate Primitive(v: Value) {
    v.Nil? || v.Bool? || v.Num? || v.Str?
  }

  /** `evaluate`: operands left to right, the first throw ends the
      evaluation. */
  function Eval(e: SExpr, numText: real -> string): (r: Applied)
    ensures r.Gives? ==> Primitive(r.value)
    ensures r.Fails? ==> !r.failure.ReturnSignal? && !r.failure.OutOfFuel?
    ensures e.SLiteral? ==> r == Gives(LitToValue(e.lit))
    decreases e
  {
    match e
    case SLiteral(v) => Gives(LitToValue(v))
    case SGrouping(inner) => Eval(inner, numText)
    case SUnary(op, right) =>
      (match Eval(right, numText)
       case Fails(f) => Fails(f)
       case Gives(v) => UnaryOp(op, v))
    case SBinary(left, op, right) =>
      (match Eval(left, numText)
       case Fails(f) => Fails(f)
       case Gives(l) =>
         match Eval(right, numText)
         case Fails(f) => Fails(f)
         case Gives(r) => BinaryOp(op, l, r, numText))
    case STernary(cond, a, b) =>
      (match Eval(cond, numText)
       case Fails(f) => Fails(f)
       case Gives(v) => if IsTruthy(v) then Eval(a, numText) else Eval(b, numText))
  }

  /** The main interpreter, given the embedded tree, computes the same
      value or throws the same error, in any state, and changes nothing. */
  lemma {:induction false} EvalAgrees(e: SExpr, st: State, host: Host)
    requires Good(st)
    ensures Interpreter.Eval(ToMain(e), st, host) == At(Eval(e, host.numText), st)
    decreases e
  {
    match e
    case SLiteral(_) =>
    case SGrouping(inner) =>
      EvalAgrees(inner, st, host);
    case SUnary(_, right) =>
      EvalAgrees(right, st, host);
    case SBinary(left, _, right) =>
      EvalAgrees(left, st, host);
      EvalAgrees(right, st, host);
      BinaryAgrees(e, st, host);
    case STernary(cond, a, b) =>
      EvalAgrees(cond, st, host);
      EvalAgrees(a, st, host);
      EvalAgrees(b, st, host);
  }

  /** The binary step, once both operands agree. */
  lemma BinaryAgrees(e: SExpr, st: State, host: Host)
    requires e.SBinary? && Good(st)
    requires Interpreter.Eval(ToMain(e.left), st, host) == At(Eval(e.left, host.numText), st)
    requires Interpreter.Eval(ToMain(e.right), st, host) == At(Eval(e.right, host.numText), st)
    ensures Interpreter.Eval(ToMain(e), st, host) == At(Eval(e, host.numText), st)
  {
    assert Interpreter.Eval(ToMain(e), st, host) == EvalBinary(ToMain(e), st, host);
  }

  /** A ternary evaluates the branch that the condition's JavaScript
      truthiness selects, and only that branch: the other one may throw.
      Both clauses follow by unfolding `Eval`; the lemma records the
      evaluation order for the reader. */
  lemma TernaryPicksBranch(c: SExpr, a: SExpr, b: SExpr, numText: real -> string)
    requires Eval(c, numText).Gives?
    ensures !Falsy(Eval(c, numText).value) ==> Eval(STernary(c, a, b), numText) == Eval(a, numText)
    ensures Falsy(Eval(c, numText).value) ==> Eval(STernary(c, a, b), numText) == Eval(b, numText)
  {
  }

  /** `interpret`: the logged line `stringify(value)`, or nothing when the
      evaluation throws, since the error is caught and dropped. */
  function Interpret(e: SExpr, numText: real -> string): (r: Option<string>)
    ensures r.None? <==> Eval(e, numText).Fails?
    ensures Eval(e, numText).Gives? && Eval(e, numText).value == Nil ==> r == Some("nil")
  {
    match Eval(e, numText)
    case Fails(_) => None
    case Gives(v) => Some(Stringify(v, numText))
  }

  /** The snapshot logs exactly what the main interpreter prints for a
      `print` statement of the embedded tree, whatever state that
      interpreter is in, and it is silent exactly when the main
      interpreter's run ends in an error. */
  lemma InterpretAgrees(e: SExpr, st: State, host: Host, fuel: nat)
    requires Good(st)
    ensures var run := TopLevel.Interpret([Print(ToMain(e))], st, host, fuel);
      var line := Interpret(e, host.numText);
      (run.error.None? <==> line.Some?) && run.printed == (if line.Some? then [line.value] else [])
  {
    EvalAgrees(e, st, host);
    var run := TopLevel.RunAll([Print(ToMain(e))], st, host, fuel);
    var first := Exec(Print(ToMain(e)), st, host, fuel);
    assert [Print(ToMain(e))][1..] == [];
    assert run == (if first.Threw? then first else TopLevel.RunAll([], first.st, host, fuel));
  }
}
