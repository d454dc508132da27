/** The static resolver of src/jlox/resolver.ts. The resolver's fields
    (the scope stack, the current function and class kinds) and the side
    table it fills through `Interpreter.resolve` become a `Resolution`
    value; the side table is keyed by node id, and the errors it logs are
    appended to a list. A node kind the resolver has no visitor for, and the
    `null` a failed declaration leaves in the statement list, make the
    source throw a TypeError; that is a `Crash`. */
module Resolver {
  import opened Basics
  import opened Tokens
  import opened Ast

  datatype FunctionType = NoFunction | PlainFunction | Initializer | Method

  datatype ClassType = NoClass | InClass

  datatype ResolveError = ResolveError(token: Token, message: string)

  datatype Resolution = Resolution(
    scopes: seq<map<string, bool>>,
    fn: FunctionType,
    cls: ClassType,
    locals: map<nat, nat>,
    errors: seq<ResolveError>)

  datatype Resolved = Done(st: Resolution) | Crash(message: string)

  const Initial := Resolution([], NoFunction, NoClass, map[], [])

  function Report(st: Resolution, token: Token, message: string): (r: Resolution)
    ensures r == st.(errors := st.errors + [ResolveError(token, message)])
  {
    st.(errors := st.errors + [ResolveError(token, message)])
  }

  // ---------------------------------------------------------------------
  // The scope stack

  function BeginScope(st: Resolution): (r: Resolution)
    ensures r.scopes == st.scopes + [map[]]
    ensures r.(scopes := st.scopes) == st
  {
    st.(scopes := st.scopes + [map[]])
  }

  function EndScope(st: Resolution): (r: Resolution)
    requires |st.scopes| > 0
    ensures r.scopes == st.scopes[..|st.scopes| - 1]
    ensures r.(scopes := st.scopes) == st
  {
    st.(scopes := st.scopes[..|st.scopes| - 1])
  }

  /** Binds `name` to `ready` in the innermost scope. */
  function SetInnermost(st: Resolution, name: string, ready: bool): (r: Resolution)
    requires |st.scopes| > 0
    ensures |r.scopes| == |st.scopes|
    ensures r.scopes[..|st.scopes| - 1] == st.scopes[..|st.scopes| - 1]
    ensures r.scopes[|st.scopes| - 1] == st.scopes[|st.scopes| - 1][name := ready]
    ensures r.(scopes := st.scopes) == st
  {
    var n := |st.scopes| - 1;
    st.(scopes := st.scopes[..n] + [st.scopes[n][name := ready]])
  }

  /** `declare`: a no-op without scopes; otherwise binds the name to
      `false` in the innermost scope, reporting a second declaration. */
  function Declare(st: Resolution, name: Token): (r: Resolution)
    ensures |st.scopes| == 0 ==> r == st
    ensures |r.scopes| == |st.scopes| && r.fn == st.fn && r.cls == st.cls && r.locals == st.locals
    ensures |st.scopes| > 0 ==>
      && r.scopes[..|st.scopes| - 1] == st.scopes[..|st.scopes| - 1]
      && r.scopes[|st.scopes| - 1] == st.scopes[|st.scopes| - 1][name.lexeme := false]
    ensures |st.scopes| > 0 && name.lexeme in st.scopes[|st.scopes| - 1] ==>
      r.errors == st.errors + [ResolveError(name, "Variable with this name already declared in this scope.")]
    ensures (|st.scopes| == 0 || name.lexeme !in st.scopes[|st.scopes| - 1]) ==> r.errors == st.errors
  {
    if |st.scopes| == 0 then st
    else
      var st1 :=
        if name.lexeme in st.scopes[|st.scopes| - 1]
        then Report(st, name, "Variable with this name already declared in this scope.")
        else st;
      SetInnermost(st1, name.lexeme, false)
  }

  /** `define`: a no-op without scopes; otherwise marks the name ready. */
  function Define(st: Resolution, name: Token): (r: Resolution)
    ensures |st.scopes| == 0 ==> r == st
    ensures |r.scopes| == |st.scopes| && r.(scopes := st.scopes) == st
    ensures |st.scopes| > 0 ==>
      && r.scopes[..|st.scopes| - 1] == st.scopes[..|st.scopes| - 1]
      && r.scopes[|st.scopes| - 1] == st.scopes[|st.scopes| - 1][name.lexeme := true]
  {
    if |st.scopes| == 0 then st else SetInnermost(st, name.lexeme, true)
  }

  // ---------------------------------------------------------------------
  // Local resolution

  /** Scope `i` is the innermost one binding `name`. */
  predicate IsInnermost(scopes: seq<map<string, bool>>, name: string, i: nat) {
    i < |scopes| && name in scopes[i] && forall k :: i < k < |scopes| ==> name !in scopes[k]
  }

  predicate Unbound(scopes: seq<map<string, bool>>, name: string) {
    forall j :: 0 <= j < |scopes| ==> name !in scopes[j]
  }

  /** The loop of `resolveLocal` over `scopes[..n]`, innermost first. */
  function InnermostIndex(scopes: seq<map<string, bool>>, name: string, n: nat): (r: Option<nat>)
    requires n <= |scopes|
    ensures r.None? <==> forall j :: 0 <= j < n ==> name !in scopes[j]
    ensures r.Some? ==> r.value < n && name in scopes[r.value]
    ensures r.Some? ==> forall k :: r.value < k < n ==> name !in scopes[k]
  {
    if n == 0 then None
    else if name in scopes[n - 1] then Some(n - 1)
    else InnermostIndex(scopes, name, n - 1)
  }

  /** `resolveLocal`: records, for node `id`, how many scopes out the
      innermost binding of `name` lies; records nothing for a global. */
  function ResolveLocal(st: Resolution, id: nat, name: Token): (r: Resolution)
    ensures r.(locals := st.locals) == st
    ensures Unbound(st.scopes, name.lexeme) ==> r.locals == st.locals
    ensures !Unbound(st.scopes, name.lexeme) ==>
      && id in r.locals && r.locals == st.locals[id := r.locals[id]]
      && r.locals[id] < |st.scopes|
      && IsInnermost(st.scopes, name.lexeme, |st.scopes| - 1 - r.locals[id])
  {
    match InnermostIndex(st.scopes, name.lexeme, |st.scopes|)
    case None => st
    case Some(i) => st.(locals := st.locals[id := |st.scopes| - 1 - i])
  }

  // ---------------------------------------------------------------------
  // Expressions

  /** What resolving an expression may change: errors are appended and
      side-table entries added; the scope stack and the function and class
      kinds are untouched. */
  predicate ExprStep(st: Resolution, r: Resolution) {
    && r.scopes == st.scopes && r.fn == st.fn && r.cls == st.cls
    && st.errors <= r.errors && st.locals.Keys <= r.locals.Keys
  }

  /** The innermost scope holds `name` but it is not yet defined. */
  predicate Initializing(st: Resolution, name: string) {
    |st.scopes| > 0 && name in st.scopes[|st.scopes| - 1] && !st.scopes[|st.scopes| - 1][name]
  }

  /** `visitVariableExpr`: reading a name whose innermost entry is still
      `false` is reported, and the name is resolved in any case. */
  function ResolveVariable(st: Resolution, name: Token, id: nat): (r: Resolution)
    ensures ExprStep(st, r)
    ensures Initializing(st, name.lexeme) ==>
      r.errors == st.errors + [ResolveError(name, "Cannot read local variable in its own initializer.")]
    ensures !Initializing(st, name.lexeme) ==> r.errors == st.errors
    ensures Unbound(st.scopes, name.lexeme) ==> r.locals == st.locals
    ensures !Unbound(st.scopes, name.lexeme) ==>
      && id in r.locals && r.locals == st.locals[id := r.locals[id]]
      && r.locals[id] < |st.scopes|
      && IsInnermost(st.scopes, name.lexeme, |st.scopes| - 1 - r.locals[id])
  {
    var st1 :=
      if Initializing(st, name.lexeme)
      then Report(st, name, "Cannot read local variable in its own initializer.")
      else st;
    ResolveLocal(st1, id, name)
  }

  /** `visitThisExpr`: outside a class an error and nothing recorded;
      inside, `this` resolves like a variable. */
  function ResolveThis(st: Resolution, keyword: Token, id: nat): (r: Resolution)
    ensures ExprStep(st, r)
    ensures st.cls == NoClass ==>
      r == st.(errors := st.errors + [ResolveError(keyword, "Cannot use 'this' outside of a class.")])
    ensures st.cls == InClass ==> r.errors == st.errors
    ensures st.cls == InClass && Unbound(st.scopes, keyword.lexeme) ==> r.locals == st.locals
    ensures st.cls == InClass && !Unbound(st.scopes, keyword.lexeme) ==>
      && id in r.locals && r.locals == st.locals[id := r.locals[id]]
      && r.locals[id] < |st.scopes|
      && IsInnermost(st.scopes, keyword.lexeme, |st.scopes| - 1 - r.locals[id])
  {
    if st.cls == NoClass then Report(st, keyword, "Cannot use 'this' outside of a class.")
    else ResolveLocal(st, id, keyword)
  }

  /** Node `id` is a reference the resolver reaches in `e` (everything
      except what lies under a ternary, a comma or a function expression)
      whose name is bound `d` scopes out from the innermost one (and, for
      `this`, which occurs inside a class). */
  predicate RefersAt(e: Expr, scopes: seq<map<string, bool>>, cls: ClassType, id: nat, d: nat)
    decreases e
  {
    match e
    case Variable(name, i) => i == id && d < |scopes| && IsInnermost(scopes, name.lexeme, |scopes| - 1 - d)
    case Assign(name, value, i) =>
      || (i == id && d < |scopes| && IsInnermost(scopes, name.lexeme, |scopes| - 1 - d))
      || RefersAt(value, scopes, cls, id, d)
    case This(keyword, i) =>
      cls != NoClass && i == id && d < |scopes| && IsInnermost(scopes, keyword.lexeme, |scopes| - 1 - d)
    case Grouping(inner) => RefersAt(inner, scopes, cls, id, d)
    case Unary(_, right) => RefersAt(right, scopes, cls, id, d)
    case Get(obj, _) => RefersAt(obj, scopes, cls, id, d)
    case Binary(left, _, right) => RefersAt(left, scopes, cls, id, d) || RefersAt(right, scopes, cls, id, d)
    case Logical(left, _, right) => RefersAt(left, scopes, cls, id, d) || RefersAt(right, scopes, cls, id, d)
    case Set(obj, _, value) => RefersAt(value, scopes, cls, id, d) || RefersAt(obj, scopes, cls, id, d)
    case Call(callee, _, args) => RefersAt(callee, scopes, cls, id, d) || RefersAtAll(args, scopes, cls, id, d)
    case _ => false
  }

  predicate RefersAtAll(es: seq<Expr>, scopes: seq<map<string, bool>>, cls: ClassType, id: nat, d: nat)
    decreases es
  {
    |es| > 0 && (RefersAt(es[0], scopes, cls, id, d) || RefersAtAll(es[1..], scopes, cls, id, d))
  }

  /** The reached nodes that refer to a name bound in some scope (and, for
      `this`, occur inside a class). */
  function LocalRefs(e: Expr, scopes: seq<map<string, bool>>, cls: ClassType): set<nat>
    decreases e
  {
    match e
    case Variable(name, id) => if Unbound(scopes, name.lexeme) then {} else {id}
    case Assign(name, value, id) =>
      (if Unbound(scopes, name.lexeme) then {} else {id}) + LocalRefs(value, scopes, cls)
    case This(keyword, id) => if cls == NoClass || Unbound(scopes, keyword.lexeme) then {} else {id}
    case Grouping(inner) => LocalRefs(inner, scopes, cls)
    case Unary(_, right) => LocalRefs(right, scopes, cls)
    case Get(obj, _) => LocalRefs(obj, scopes, cls)
    case Binary(left, _, right) => LocalRefs(left, scopes, cls) + LocalRefs(right, scopes, cls)
    case Logical(left, _, right) => LocalRefs(left, scopes, cls) + LocalRefs(right, scopes, cls)
    case Set(obj, _, value) => LocalRefs(value, scopes, cls) + LocalRefs(obj, scopes, cls)
    case Call(callee, _, args) => LocalRefs(callee, scopes, cls) + LocalRefsAll(args, scopes, cls)
    case _ => {}
  }

  function LocalRefsAll(es: seq<Expr>, scopes: seq<map<string, bool>>, cls: ClassType): set<nat>
    decreases es
  {
    if |es| == 0 then {} else LocalRefs(es[0], scopes, cls) + LocalRefsAll(es[1..], scopes, cls)
  }

  /** The side table `locals` is `st`'s plus one entry for every reached
      reference to a locally bound name in `e`, holding how many scopes out
      that name's innermost binding lies; every other entry is kept. */
  predicate Records(e: Expr, st: Resolution, locals: map<nat, nat>) {
    var refs := LocalRefs(e, st.scopes, st.cls);
    && locals.Keys == st.locals.Keys + refs
    && (forall id :: id in refs ==> RefersAt(e, st.scopes, st.cls, id, locals[id]))
    && (forall id :: id in st.locals && id !in refs ==> locals[id] == st.locals[id])
  }

  predicate RecordsAll(es: seq<Expr>, st: Resolution, locals: map<nat, nat>) {
    var refs := LocalRefsAll(es, st.scopes, st.cls);
    && locals.Keys == st.locals.Keys + refs
    && (forall id :: id in refs ==> RefersAtAll(es, st.scopes, st.cls, id, locals[id]))
    && (forall id :: id in st.locals && id !in refs ==> locals[id] == st.locals[id])
  }

  /** `resolveExpr`: every reached reference to a locally bound name gets a
      side-table entry holding the distance to the innermost scope binding
      it, and no other entry is added or changed; ternary,
      comma, tag, literal and function expressions are not traversed, and
      `super` has no visitor. */
  function ResolveExpr(e: Expr, st: Resolution): (r: Resolved)
    ensures r.Done? ==> ExprStep(st, r.st)
    ensures r.Done? ==> Records(e, st, r.st.locals)
    ensures r.Crash? ==> ContainsSuper(e)
    decreases e, 1
  {
    match e
    case Grouping(_) => ResolveInner(e, st)
    case Unary(_, _) => ResolveInner(e, st)
    case Get(_, _) => ResolveInner(e, st)
    case Binary(_, _, _) => ResolvePair(e, st)
    case Logical(_, _, _) => ResolvePair(e, st)
    case Set(_, _, _) => ResolvePair(e, st)
    case Call(_, _, _) => ResolveCall(e, st)
    case Assign(_, _, _) => ResolveAssign(e, st)
    case _ => ResolveLeaf(e, st)
  }

  /** Nodes without a resolved child: variables and `this` are resolved,
      `super` has no visitor, and the rest are left alone. */
  function ResolveLeaf(e: Expr, st: Resolution): (r: Resolved)
    requires !(e.Grouping? || e.Unary? || e.Get? || e.Binary? || e.Logical? || e.Set? || e.Call? || e.Assign?)
    ensures r.Done? ==> ExprStep(st, r.st)
    ensures r.Done? ==> Records(e, st, r.st.locals)
    ensures r.Crash? ==> ContainsSuper(e)
  {
    match e
    case Variable(name, id) =>
      VariableRecords(st, name, id);
      Done(ResolveVariable(st, name, id))
    case This(keyword, id) =>
      ThisRecords(st, keyword, id);
      Done(ResolveThis(st, keyword, id))
    case Super(_, _) => Crash("Resolver has no visitSuperExpr.")
    case _ => Done(st)
  }

  lemma VariableRecords(st: Resolution, name: Token, id: nat)
    ensures Records(Variable(name, id), st, ResolveVariable(st, name, id).locals)
  {}

  lemma ThisRecords(st: Resolution, keyword: Token, id: nat)
    ensures Records(This(keyword, id), st, ResolveThis(st, keyword, id).locals)
  {}

  /** Grouping, unary and get nodes resolve their one operand. */
  function ResolveInner(e: Expr, st: Resolution): (r: Resolved)
    requires e.Grouping? || e.Unary? || e.Get?
    ensures r.Done? ==> ExprStep(st, r.st)
    ensures r.Done? ==> Records(e, st, r.st.locals)
    ensures r.Crash? ==> ContainsSuper(e)
    decreases e, 0
  {
    match e
    case Grouping(inner) => ResolveExpr(inner, st)
    case Unary(_, right) => ResolveExpr(right, st)
    case Get(obj, _) => ResolveExpr(obj, st)
  }

  /** Binary and logical nodes resolve left then right; a set node resolves
      its value, then its object. */
  function ResolvePair(e: Expr, st: Resolution): (r: Resolved)
    requires e.Binary? || e.Logical? || e.Set?
    ensures r.Done? ==> ExprStep(st, r.st)
    ensures r.Done? ==> Records(e, st, r.st.locals)
    ensures r.Crash? ==> ContainsSuper(e)
    decreases e, 0
  {
    var (first, second) := if e.Set? then (e.value, e.obj) else (e.left, e.right);
    match ResolveExpr(first, st)
    case Crash(m) => Crash(m)
    case Done(st1) => ResolveExpr(second, st1)
  }

  function ResolveCall(e: Expr, st: Resolution): (r: Resolved)
    requires e.Call?
    ensures r.Done? ==> ExprStep(st, r.st)
    ensures r.Done? ==> Records(e, st, r.st.locals)
    ensures r.Crash? ==> ContainsSuper(e)
    decreases e, 0
  {
    match ResolveExpr(e.callee, st)
    case Crash(m) => Crash(m)
    case Done(st1) => ResolveExprs(e.args, st1)
  }

  /** `visitAssignExpr`: the value first, then the target name. */
  function ResolveAssign(e: Expr, st: Resolution): (r: Resolved)
    requires e.Assign?
    ensures r.Done? ==> ExprStep(st, r.st)
    ensures r.Done? ==> Records(e, st, r.st.locals)
    ensures r.Crash? ==> ContainsSuper(e)
    decreases e, 0
  {
    match ResolveExpr(e.value, st)
    case Crash(m) => Crash(m)
    case Done(st1) => Done(ResolveLocal(st1, e.id, e.name))
  }

  /** Resolves expressions left to right. */
  function ResolveExprs(es: seq<Expr>, st: Resolution): (r: Resolved)
    ensures r.Done? ==> ExprStep(st, r.st)
    ensures r.Done? ==> RecordsAll(es, st, r.st.locals)
    ensures r.Crash? ==> exists i :: 0 <= i < |es| && ContainsSuper(es[i])
    decreases es, 1
  {
    if |es| == 0 then Done(st)
    else
      match ResolveExpr(es[0], st)
      case Crash(m) => Crash(m)
      case Done(st1) =>
        var r := ResolveExprs(es[1..], st1);
        assert r.Crash? ==> exists i :: 1 <= i < |es| && ContainsSuper(es[i]) by {
          if r.Crash? {
            var i :| 0 <= i < |es[1..]| && ContainsSuper(es[1..][i]);
            assert ContainsSuper(es[i + 1]);
          }
        }
        r
  }

  /** A `super` node the resolver would reach. */
  predicate ContainsSuper(e: Expr) {
    match e
    case Super(_, _) => true
    case Grouping(inner) => ContainsSuper(inner)
    case Unary(_, right) => ContainsSuper(right)
    case Get(obj, _) => ContainsSuper(obj)
    case Binary(left, _, right) => ContainsSuper(left) || ContainsSuper(right)
    case Logical(left, _, right) => ContainsSuper(left) || ContainsSuper(right)
    case Set(obj, _, value) => ContainsSuper(value) || ContainsSuper(obj)
    case Call(callee, _, args) =>
      ContainsSuper(callee) || exists i :: 0 <= i < |args| && ContainsSuper(args[i])
    case Assign(_, value, _) => ContainsSuper(value)
    case _ => false
  }

  // ---------------------------------------------------------------------
  // Statements

  /** What resolving a statement may change: the stack keeps its depth and
      every scope but the innermost, the function and class kinds are
      restored, errors are appended and side-table entries added. */
  predicate StmtStep(st: Resolution, r: Resolution) {
    && |r.scopes| == |st.scopes|
    && (|st.scopes| > 0 ==> r.scopes[..|st.scopes| - 1] == st.scopes[..|st.scopes| - 1])
    && r.fn == st.fn && r.cls == st.cls
    && st.errors <= r.errors && st.locals.Keys <= r.locals.Keys
  }

  /** `visitReturnStmt`: a return outside any function, and a valued return
      in an initializer, are reported; the value is resolved. */
  function ResolveReturn(keyword: Token, value: Option<Expr>, st: Resolution): (r: Resolved)
    ensures r.Done? ==> ExprStep(st, r.st)
    ensures r.Done? && st.fn == NoFunction ==>
      |r.st.errors| > |st.errors|
      && r.st.errors[|st.errors|] == ResolveError(keyword, "Cannot return from top-level code.")
    ensures r.Done? && value.Some? && st.fn == Initializer ==>
      |r.st.errors| > |st.errors|
      && r.st.errors[|st.errors|] == ResolveError(keyword, "Cannot return a value from an initializer.")
    ensures r.Done? && st.fn != NoFunction && st.fn != Initializer && value.None? ==> r.st == st
  {
    var st1 := if st.fn == NoFunction then Report(st, keyword, "Cannot return from top-level code.") else st;
    if value.None? then Done(st1)
    else
      var st2 :=
        if st.fn == Initializer then Report(st1, keyword, "Cannot return a value from an initializer.")
        else st1;
      ResolveExpr(value.value, st2)
  }

  /** `visitVarStmt`: declare, resolve the initializer, define. */
  function ResolveVar(name: Token, init: Option<Expr>, st: Resolution): (r: Resolved)
    ensures r.Done? ==> StmtStep(st, r.st)
    ensures r.Done? && |st.scopes| == 0 ==> r.st.scopes == []
    ensures r.Done? && |st.scopes| > 0 ==>
      r.st.scopes[|st.scopes| - 1] == st.scopes[|st.scopes| - 1][name.lexeme := true]
    ensures r.Done? ==> Declare(st, name).errors <= r.st.errors
    ensures r.Done? && init.Some? ==> Records(init.value, Declare(st, name), r.st.locals)
    ensures r.Done? && init.None? ==> r.st.locals == st.locals
  {
    var st1 := Declare(st, name);
    if init.None? then Done(Define(st1, name))
    else
      match ResolveExpr(init.value, st1)
      case Crash(m) => Crash(m)
      case Done(st2) => Done(Define(st2, name))
  }

  /** Statement steps compose. */
  lemma StmtStepTrans(a: Resolution, b: Resolution, c: Resolution)
    requires StmtStep(a, b) && StmtStep(b, c)
    ensures StmtStep(a, c)
  {
    if |a.scopes| > 0 {
      var n := |a.scopes| - 1;
      assert c.scopes[..n] == b.scopes[..n] == a.scopes[..n];
    }
  }

  /** `resolveStmt`: every statement leaves the stack as deep as it found
      it, with every scope but the innermost unchanged. */
  function ResolveStmt(s: Stmt, st: Resolution): (r: Resolved)
    ensures r.Done? ==> StmtStep(st, r.st)
    decreases s, 1
  {
    match s
    case Expression(e) => ResolveExpr(e, st)
    case Print(e) => ResolveExpr(e, st)
    case Var(name, init) => ResolveVar(name, init, st)
    case Block(_) => ResolveBlock(s, st)
    case If(_, _, _) => ResolveIf(s, st)
    case While(_, _) => ResolveWhile(s, st)
    case Break => Done(st)
    case FunctionStmt(decl) =>
      ResolveFunction(decl, PlainFunction, Define(Declare(st, decl.name), decl.name))
    case Return(keyword, value) => ResolveReturn(keyword, value, st)
    case Class(_, _, _) => ResolveClass(s, st)
    case NullStmt => Crash("Cannot read properties of null (reading 'accept')")
  }

  /** `visitBlockStmt`: the block's scope is pushed and popped, so the
      stack afterwards is exactly the stack before. */
  function ResolveBlock(s: Stmt, st: Resolution): (r: Resolved)
    requires s.Block?
    ensures r.Done? ==> r.st.scopes == st.scopes && StmtStep(st, r.st)
    decreases s, 0
  {
    match ResolveStmts(s.statements, BeginScope(st))
    case Crash(m) => Crash(m)
    case Done(st1) => Done(EndScope(st1))
  }

  function ResolveIf(s: Stmt, st: Resolution): (r: Resolved)
    requires s.If?
    ensures r.Done? ==> StmtStep(st, r.st)
    decreases s, 0
  {
    match ResolveExpr(s.condition, st)
    case Crash(m) => Crash(m)
    case Done(st1) =>
      match ResolveStmt(s.thenBranch, st1)
      case Crash(m) => Crash(m)
      case Done(st2) =>
        StmtStepTrans(st, st1, st2);
        if s.elseBranch.None? then Done(st2)
        else
          var r := ResolveStmt(s.elseBranch.value, st2);
          if r.Done? then StmtStepTrans(st, st2, r.st); r else r
  }

  function ResolveWhile(s: Stmt, st: Resolution): (r: Resolved)
    requires s.While?
    ensures r.Done? ==> StmtStep(st, r.st)
    decreases s, 0
  {
    match ResolveExpr(s.condition, st)
    case Crash(m) => Crash(m)
    case Done(st1) =>
      var r := ResolveStmt(s.body, st1);
      if r.Done? then StmtStepTrans(st, st1, r.st); r else r
  }

  /** `resolve(statements)`, in order, stopping at a crash. */
  function ResolveStmts(ss: seq<Stmt>, st: Resolution): (r: Resolved)
    ensures r.Done? ==> StmtStep(st, r.st)
    decreases ss, 0
  {
    if |ss| == 0 then Done(st)
    else
      match ResolveStmt(ss[0], st)
      case Crash(m) => Crash(m)
      case Done(st1) =>
        var r := ResolveStmts(ss[1..], st1);
        if r.Done? then StmtStepTrans(st, st1, r.st); r else r
  }

  /** `resolveFunction`: one scope holding the parameters, then the body,
      under function kind `kind`; the stack and the enclosing function kind
      are restored. */
  function ResolveFunction(decl: FunDecl, kind: FunctionType, st: Resolution): (r: Resolved)
    ensures r.Done? ==> r.st.scopes == st.scopes && r.st.fn == st.fn && r.st.cls == st.cls
    ensures r.Done? ==> st.errors <= r.st.errors && st.locals.Keys <= r.st.locals.Keys
    decreases decl, 0
  {
    var st1 := DeclareParams(decl.params, BeginScope(st.(fn := kind)));
    match ResolveStmts(decl.body, st1)
    case Crash(m) => Crash(m)
    case Done(st2) => Done(EndScope(st2).(fn := st.fn))
  }

  /** The names a parameter list binds. */
  function Names(params: seq<Token>): set<string> {
    if |params| == 0 then {} else {params[0].lexeme} + Names(params[1..])
  }

  /** Declares and defines each parameter in the innermost scope, which
      afterwards binds exactly its old names and the parameters, all of
      them defined. */
  function DeclareParams(params: seq<Token>, st: Resolution): (r: Resolution)
    requires |st.scopes| > 0
    ensures StmtStep(st, r)
    ensures r.scopes[|st.scopes| - 1].Keys == st.scopes[|st.scopes| - 1].Keys + Names(params)
    ensures forall x :: x in Names(params) ==> r.scopes[|st.scopes| - 1][x]
    ensures forall x :: x in st.scopes[|st.scopes| - 1] && x !in Names(params) ==>
      r.scopes[|st.scopes| - 1][x] == st.scopes[|st.scopes| - 1][x]
    decreases |params|
  {
    if |params| == 0 then st
    else
      var st1 := Define(Declare(st, params[0]), params[0]);
      DeclareParams(params[1..], st1)
  }

  /** `visitClassStmt`: the name is bound in the enclosing scope, and the
      methods are resolved inside a scope that pre-binds "this"; the
      enclosing class kind is restored. */
  function ResolveClass(s: Stmt, st: Resolution): (r: Resolved)
    requires s.Class?
    ensures r.Done? ==> StmtStep(st, r.st)
    decreases s, 0
  {
    var st1 := Define(Declare(st.(cls := InClass), s.name), s.name);
    var st2 := SetInnermost(BeginScope(st1), "this", true);
    match ResolveMethods(s.methods, st2)
    case Crash(m) => Crash(m)
    case Done(st3) => Done(EndScope(st3).(cls := st.cls))
  }

  /** Each method, as an initializer when it is named "init". */
  function ResolveMethods(methods: seq<FunDecl>, st: Resolution): (r: Resolved)
    ensures r.Done? ==> r.st.scopes == st.scopes && r.st.fn == st.fn && r.st.cls == st.cls
    ensures r.Done? ==> st.errors <= r.st.errors && st.locals.Keys <= r.st.locals.Keys
    decreases methods, 0
  {
    if |methods| == 0 then Done(st)
    else
      var kind := if methods[0].name.lexeme == "init" then Initializer else Method;
      match ResolveFunction(methods[0], kind, st)
      case Crash(m) => Crash(m)
      case Done(st1) => ResolveMethods(methods[1..], st1)
  }

  // ---------------------------------------------------------------------
  // Consequences for small programs

  /** Two scopes cannot both be the innermost binding of one name. */
  lemma InnermostUnique(scopes: seq<map<string, bool>>, name: string, i: nat, j: nat)
    requires IsInnermost(scopes, name, i) && IsInnermost(scopes, name, j)
    ensures i == j
  {
  }

  /** A list runs its head statement, then the rest from where it left. */
  lemma StmtsUnfold(ss: seq<Stmt>, st: Resolution, st1: Resolution)
    requires |ss| > 0 && ResolveStmt(ss[0], st) == Done(st1)
    ensures ResolveStmts(ss, st) == ResolveStmts(ss[1..], st1)
  {
  }

  /** A one-statement body that reads a variable or `this`. */
  lemma LoneLeafStmt(e: Expr, st: Resolution)
    requires e.Variable? || e.This?
    ensures ResolveStmts([Expression(e)], st) == ResolveLeaf(e, st)
  {
    assert [Expression(e)][1..] == [];
  }

  /** A class with one method resolves that method under the kind its name
      selects. */
  lemma LoneMethod(decl: FunDecl, st: Resolution)
    ensures ResolveMethods([decl], st) ==
      ResolveFunction(decl, if decl.name.lexeme == "init" then Initializer else Method, st)
  {
    assert [decl][1..] == [];
  }

  /** The state a class's methods are resolved in. */
  function ClassScope(s: Stmt, st: Resolution): (r: Resolution)
    requires s.Class?
    ensures r.cls == InClass && r.fn == st.fn && |r.scopes| == |st.scopes| + 1
    ensures r.scopes[|st.scopes|] == map["this" := true]
  {
    SetInnermost(BeginScope(Define(Declare(st.(cls := InClass), s.name), s.name)), "this", true)
  }

  lemma ClassUnfold(s: Stmt, st: Resolution, st3: Resolution)
    requires s.Class? && ResolveMethods(s.methods, ClassScope(s, st)) == Done(st3)
    ensures ResolveStmt(s, st) == Done(EndScope(st3).(cls := st.cls))
  {
  }

  /** `{ var x; x; }`: the read resolves to the block's own scope, at
      depth 0, without errors. */
  lemma {:induction false} BlockLocalIsDepthZero(x: Token, y: Token, id: nat, st: Resolution)
    requires y.lexeme == x.lexeme
    ensures var r := ResolveStmt(Block([Var(x, None), Expression(Variable(y, id))]), st);
      r.Done? && id in r.st.locals && r.st.locals[id] == 0 && r.st.errors == st.errors
  {
    var ss := [Var(x, None), Expression(Variable(y, id))];
    var st0 := BeginScope(st);
    var st1 := Define(Declare(st0, x), x);
    assert ResolveStmt(ss[0], st0) == Done(st1);
    StmtsUnfold(ss, st0, st1);
    assert ss[1..] == [Expression(Variable(y, id))];
    LoneLeafStmt(Variable(y, id), st1);
    var st2 := ResolveVariable(st1, y, id);
    assert ResolveStmts(ss, st0) == Done(st2);
    assert st1.scopes[|st.scopes|] == map[x.lexeme := true];
    InnermostUnique(st1.scopes, y.lexeme, |st.scopes|, |st1.scopes| - 1 - st2.locals[id]);
  }

  /** `var x = x;` inside a scope reports the read of `x` in its own
      initializer, and still records it at depth 0. */
  lemma {:induction false} OwnInitializerIsReported(name: Token, ref: Token, id: nat, st: Resolution)
    requires |st.scopes| > 0 && name.lexeme !in st.scopes[|st.scopes| - 1] && ref.lexeme == name.lexeme
    ensures var r := ResolveStmt(Var(name, Some(Variable(ref, id))), st);
      && r.Done? && id in r.st.locals && r.st.locals[id] == 0
      && r.st.errors == st.errors + [ResolveError(ref, "Cannot read local variable in its own initializer.")]
  {
    var st1 := Declare(st, name);
    assert Initializing(st1, ref.lexeme);
    var st2 := ResolveVariable(st1, ref, id);
    assert ResolveExpr(Variable(ref, id), st1) == Done(st2);
    InnermostUnique(st1.scopes, ref.lexeme, |st.scopes| - 1, |st.scopes| - 1 - st2.locals[id]);
  }

  /** A function whose body is `this;`, resolved inside a class whose
      innermost scope binds "this", records the `this` one scope out. */
  lemma {:induction false} ThisInFunctionBody(
    m: Token, params: seq<Token>, kw: Token, id: nat, kind: FunctionType, st: Resolution)
    requires kw.lexeme == "this" && "this" !in Names(params)
    requires st.cls == InClass && |st.scopes| > 0 && "this" in st.scopes[|st.scopes| - 1]
    ensures var r := ResolveFunction(FunDecl(m, params, [Expression(This(kw, id))]), kind, st);
      r.Done? && id in r.st.locals && r.st.locals[id] == 1
  {
    var st3 := DeclareParams(params, BeginScope(st.(fn := kind)));
    var n := |st.scopes| - 1;
    assert st3.scopes[n] == st.scopes[n];
    assert IsInnermost(st3.scopes, kw.lexeme, n);
    LoneLeafStmt(This(kw, id), st3);
    var st4 := ResolveThis(st3, kw, id);
    assert ResolveLeaf(This(kw, id), st3) == Done(st4);
    assert ResolveStmts([Expression(This(kw, id))], st3) == Done(st4);
    InnermostUnique(st3.scopes, kw.lexeme, n, |st3.scopes| - 1 - st4.locals[id]);
  }

  /** A method body's `this` resolves one scope out: past the method's own
      scope, to the class scope that pre-binds it. */
  lemma {:induction false} ThisInMethodIsDepthOne(
    cname: Token, superclass: Option<Expr>, m: Token, params: seq<Token>, kw: Token, id: nat, st: Resolution)
    requires kw.lexeme == "this" && "this" !in Names(params)
    ensures var r := ResolveStmt(Class(cname, superclass, [FunDecl(m, params, [Expression(This(kw, id))])]), st);
      r.Done? && id in r.st.locals && r.st.locals[id] == 1
  {
    var decl := FunDecl(m, params, [Expression(This(kw, id))]);
    var s := Class(cname, superclass, [decl]);
    var st2 := ClassScope(s, st);
    var kind := if m.lexeme == "init" then Initializer else Method;
    ThisInFunctionBody(m, params, kw, id, kind, st2);
    LoneMethod(decl, st2);
    var st5 := ResolveFunction(decl, kind, st2).st;
    ClassUnfold(s, st, st5);
  }

  /** `return` with a value in a method named "init" is reported. */
  lemma {:induction false} InitializerReturnIsReported(
    cname: Token, m: Token, kw: Token, lit: LitValue, st: Resolution)
    requires m.lexeme == "init"
    ensures var r := ResolveStmt(Class(cname, None, [FunDecl(m, [], [Return(kw, Some(Literal(lit)))])]), st);
      r.Done? && ResolveError(kw, "Cannot return a value from an initializer.") in r.st.errors
  {
    var decl := FunDecl(m, [], [Return(kw, Some(Literal(lit)))]);
    var s := Class(cname, None, [decl]);
    var st2 := ClassScope(s, st);
    var st3 := DeclareParams([], BeginScope(st2.(fn := Initializer)));
    var st4 := Report(st3, kw, "Cannot return a value from an initializer.");
    assert ResolveLeaf(Literal(lit), st4) == Done(st4);
    assert ResolveReturn(kw, Some(Literal(lit)), st3) == Done(st4);
    assert [Return(kw, Some(Literal(lit)))][1..] == [];
    assert ResolveStmts(decl.body, st3) == Done(st4);
    var st5 := EndScope(st4).(fn := st2.fn);
    LoneMethod(decl, st2);
    assert ResolveMethods([decl], st2) == Done(st5);
    ClassUnfold(s, st, st5);
  }

  /** Resolves a whole program from an empty stack. */
  function Resolve(ss: seq<Stmt>): (r: Resolved)
    ensures r.Done? ==> r.st.scopes == [] && r.st.fn == NoFunction && r.st.cls == NoClass
  {
    ResolveStmts(ss, Initial)
  }

}
