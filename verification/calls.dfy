/** `LoxFunction.call` (src/jlox/lox-function.ts) and `LoxClass.call`
    (src/jlox/lox-class.ts). Both hand work to code outside them: a
    function's body is run by the interpreter's `executeBlock`, and a
    class's initializer is run through `bind(instance).call(...)`. Those
    steps are parameters here (`run`, `invokeInit`), so the contracts say
    what each `call` does with whatever they produce. */
module Calls {
  import opened Basics
  import opened Tokens
  import opened Ast
  import opened Values
  import Environment
  import opened Instances
  import opened Interpreter

  /** `args[i]`, which JavaScript reads as `undefined` past the end. */
  function ArgAt(args: seq<Value>, i: nat): (v: Value)
    ensures i < |args| ==> v == args[i]
    ensures i >= |args| ==> v == Undef
  {
    if i < |args| then args[i] else Undef
  }

  /** The set of the parameters' names. */
  function Lexemes(params: seq<Token>): (names: set<string>)
    ensures forall i :: 0 <= i < |params| ==> params[i].lexeme in names
    ensures |names| <= |params|
    decreases |params|
  {
    if |params| == 0 then {}
    else
      var k := |params| - 1;
      assert forall i :: 0 <= i < k ==> params[..k][i] == params[i];
      Lexemes(params[..k]) + {params[k].lexeme}
  }

  lemma {:induction false} LexemeHasIndex(params: seq<Token>, n: string)
    ensures n in Lexemes(params) ==> exists i :: 0 <= i < |params| && params[i].lexeme == n
    decreases |params|
  {
    if |params| > 0 {
      var k := |params| - 1;
      LexemeHasIndex(params[..k], n);
      if n in Lexemes(params[..k]) {
        var i :| 0 <= i < k && params[..k][i].lexeme == n;
        assert params[i].lexeme == n;
      }
    }
  }

  /** No later parameter has the same name as parameter `i`, so its binding
      is the one that survives. */
  predicate LastOfName(params: seq<Token>, i: nat)
    requires i < |params|
  {
    forall j :: i < j < |params| ==> params[j].lexeme != params[i].lexeme
  }

  /** The parameter loop of `call`: `define(params[i].lexeme, args[i])`
      for i = 0, 1, ... in order, starting from an empty map. */
  function BindParams(params: seq<Token>, args: seq<Value>): (m: map<string, Value>)
    ensures m.Keys == Lexemes(params)
    ensures forall i :: 0 <= i < |params| && LastOfName(params, i) ==> m[params[i].lexeme] == ArgAt(args, i)
    decreases |params|
  {
    if |params| == 0 then map[]
    else
      var k := |params| - 1;
      var m := BindParams(params[..k], args);
      BindLast(params, args, m);
      m[params[k].lexeme := ArgAt(args, k)]
  }

  /** The step of `BindParams`: defining the last parameter over the
      bindings of the others. */
  lemma {:induction false} BindLast(params: seq<Token>, args: seq<Value>, m: map<string, Value>)
    requires |params| > 0
    requires var k := |params| - 1;
      forall i :: 0 <= i < k && LastOfName(params[..k], i) ==> params[..k][i].lexeme in m && m[params[..k][i].lexeme] == ArgAt(args, i)
    ensures var k := |params| - 1; var m' := m[params[k].lexeme := ArgAt(args, k)];
      forall i :: 0 <= i < |params| && LastOfName(params, i) ==> params[i].lexeme in m' && m'[params[i].lexeme] == ArgAt(args, i)
  {
    var k := |params| - 1;
    var m' := m[params[k].lexeme := ArgAt(args, k)];
    forall i | 0 <= i < |params| && LastOfName(params, i)
      ensures params[i].lexeme in m' && m'[params[i].lexeme] == ArgAt(args, i)
    {
      if i < k {
        assert params[..k][i] == params[i];
        assert params[i].lexeme != params[k].lexeme;
        forall j | i < j < k
          ensures params[..k][j].lexeme != params[..k][i].lexeme
        {
          assert params[..k][j] == params[j];
        }
        assert LastOfName(params[..k], i);
      }
    }
  }

  /** The state a call's body starts in: one new frame, linked to the
      closure and holding the parameters, made the current environment. */
  function CallFrame(f: LoxFunction, args: seq<Value>, st: State): (r: State)
    requires Good(st) && f.closure < |st.store|
    ensures Good(r) && r.env == |st.store|
    ensures |r.store| == |st.store| + 1 && r.store[..|st.store|] == st.store
    ensures r.store[r.env].enclosing == Some(f.closure)
    ensures r.store[r.env].values == BindParams(f.decl.params, args)
    ensures r.heap == st.heap && r.out == st.out
  {
    var store := st.store + [Environment.Frame(BindParams(f.decl.params, args), Some(f.closure))];
    st.(store := store, env := |st.store|)
  }

  /** A body's outcome as seen by `call`'s `try`/`catch`. */
  function Returned(body: Executed): (r: Evaluated)
    ensures body.Threw? && body.failure.ReturnSignal? ==> r == Val(body.failure.value, body.st)
    ensures body.Threw? && !body.failure.ReturnSignal? ==> r == Thrown(body.failure, body.st)
    ensures !body.Threw? ==> r == Val(Nil, body.st)
  {
    match body
    case Threw(ReturnSignal(v), s) => Val(v, s)
    case Threw(f, s) => Thrown(f, s)
    case _ => Val(Nil, body.st)
  }

  /** `LoxFunction.call`. `run(body, st, env)` is the interpreter's
      `executeBlock`, which runs the body in the new frame. A `Return`
      signal from the body yields its value, any other error propagates
      unchanged, and a body that finishes (or breaks) yields nil; the state
      is the one the body left. `CallRestoresEnvironment` adds what holds
      once `run` is the interpreter's own `ExecBlock`. */
  function CallFunction(f: LoxFunction, args: seq<Value>, st: State,
                        run: (seq<Stmt>, State, nat) -> Executed): (r: Evaluated)
    requires Good(st) && f.closure < |st.store|
    ensures var body := run(f.decl.body, CallFrame(f, args, st).(env := st.env), |st.store|);
      && r.st == body.st
      && (body.Threw? && body.failure.ReturnSignal? ==> r == Val(body.failure.value, body.st))
      && (body.Threw? && !body.failure.ReturnSignal? ==> r.Thrown? && r.failure == body.failure)
      && (!body.Threw? ==> r.Val? && r.value == Nil)
  {
    Returned(run(f.decl.body, CallFrame(f, args, st).(env := st.env), |st.store|))
  }

  /** With the interpreter's `executeBlock` as `run`, a call hands the
      caller back its own environment handle whatever the body does (a
      `return` or an error included), every frame that existed before the
      call keeps its link, and the arena, heap and output only grow. */
  lemma CallRestoresEnvironment(f: LoxFunction, args: seq<Value>, st: State, host: Host, fuel: nat,
                                run: (seq<Stmt>, State, nat) -> Executed)
    requires Good(st) && f.closure < |st.store|
    requires forall ss, s, env: nat :: Good(s) && env < |s.store| ==> run(ss, s, env) == ExecBlock(ss, s, env, host, fuel)
    ensures var r := CallFunction(f, args, st, run);
      && Good(r.st) && r.st.env == st.env
      && |r.st.store| > |st.store| && |r.st.heap| >= |st.heap| && st.out <= r.st.out
      && forall i :: 0 <= i < |st.store| ==> r.st.store[i].enclosing == st.store[i].enclosing
  {
    var frame := CallFrame(f, args, st);
    var s := frame.(env := st.env);
    var body := ExecBlock(f.decl.body, s, |st.store|, host, fuel);
    assert StmtFrame(s, body.st);
    assert forall i :: 0 <= i < |st.store| ==> s.store[i] == st.store[i];
  }

  /** Parameter `i` of a call is visible in the body's environment as
      `args[i]` (or `undefined` past the end of the arguments), unless a
      later parameter reuses its name; the body's environment sees the
      closure through its link. */
  lemma ParameterIsBound(f: LoxFunction, args: seq<Value>, st: State, i: nat)
    requires Good(st) && f.closure < |st.store|
    requires i < |f.decl.params| && LastOfName(f.decl.params, i)
    ensures var body := CallFrame(f, args, st);
      Environment.Get(body.store, body.env, f.decl.params[i]) == Environment.Found(ArgAt(args, i))
  {
  }

  /** The body's environment binds exactly the parameters (as many as the
      function's arity when their names are distinct), and a name that is
      not a parameter is looked up in the closure. */
  lemma {:induction false} NonParameterComesFromClosure(f: LoxFunction, args: seq<Value>, st: State, name: Token)
    requires Good(st) && f.closure < |st.store|
    requires name.lexeme !in Lexemes(f.decl.params)
    ensures var body := CallFrame(f, args, st);
      Environment.Get(body.store, body.env, name) == Environment.Get(st.store, f.closure, name)
  {
    var body := CallFrame(f, args, st);
    Environment.GetGrows(st.store, body.store, f.closure, name);
  }

  /** Distinct parameter names give as many names as parameters. */
  lemma {:induction false} DistinctLexemes(params: seq<Token>)
    requires forall i, j :: 0 <= i < j < |params| ==> params[i].lexeme != params[j].lexeme
    ensures |Lexemes(params)| == |params|
    decreases |params|
  {
    if |params| > 0 {
      var k := |params| - 1;
      assert forall i :: 0 <= i < k ==> params[..k][i] == params[i];
      DistinctLexemes(params[..k]);
      LexemeHasIndex(params[..k], params[k].lexeme);
      assert params[k].lexeme !in Lexemes(params[..k]);
    }
  }

  /** With distinct parameter names, a call's frame holds exactly `arity`
      bindings. */
  lemma CallFrameHoldsArity(f: LoxFunction, args: seq<Value>, st: State)
    requires Good(st) && f.closure < |st.store|
    requires forall i, j :: 0 <= i < j < |f.decl.params| ==> f.decl.params[i].lexeme != f.decl.params[j].lexeme
    ensures var body := CallFrame(f, args, st);
      |body.store[body.env].values.Keys| == FunctionArity(f)
  {
    DistinctLexemes(f.decl.params);
  }

  /** `LoxClass.call`. `invokeInit(init, instance, args, st)` is
      `init.bind(instance).call(interpreter, args)`. A new instance is made;
      the initializer, when the class has one, runs on it; the result is
      always that instance, whatever the initializer returns, unless the
      initializer throws. */
  function CallClass(c: LoxClass, args: seq<Value>, st: State,
                     invokeInit: (LoxFunction, Value, seq<Value>, State) -> Evaluated): (r: Evaluated)
    ensures r.Val? ==> r.value == Instance(|st.heap|, c)
    ensures "init" !in c.methods ==> r == Val(Instance(|st.heap|, c), st.(heap := st.heap + [map[]]))
    ensures "init" in c.methods ==>
      var call := invokeInit(c.methods["init"], Instance(|st.heap|, c), args, st.(heap := st.heap + [map[]]));
      (r.Val? <==> call.Val?) && r.st == call.st && (call.Thrown? ==> r.failure == call.failure)
  {
    var (heap, instance) := NewInstance(st.heap, c);
    var st1 := st.(heap := heap);
    match FindMethod(c, "init")
    case None => Val(instance, st1)
    case Some(init) =>
      match invokeInit(init, instance, args, st1)
      case Thrown(f, s) => Thrown(f, s)
      case Val(_, s) => Val(instance, s)
  }

  /** A class without an initializer makes an instance with no fields:
      every property read on it finds a method of the class, bound to the
      new instance, or fails as undefined. */
  lemma CallWithoutInitHasNoFields(c: LoxClass, args: seq<Value>, st: State,
                                   invokeInit: (LoxFunction, Value, seq<Value>, State) -> Evaluated, name: Token)
    requires "init" !in c.methods
    ensures var r := CallClass(c, args, st, invokeInit);
      && r.Val? && Live(r.st.heap, r.value)
      && InstanceGet(r.st.heap, r.value, name) ==
           if name.lexeme in c.methods then Property(BoundMethod(c.methods[name.lexeme], |st.heap|))
           else NoProperty(name, "Undefined property '" + name.lexeme + "'.")
  {
    NewInstanceHasOnlyMethods(st.heap, c, name);
  }
}
