/** Runtime values of the tree-walking interpreter and the operations of
    src/jlox/lox-function.ts, src/jlox/lox-class.ts and the value helpers
    of src/jlox/visitors/interpreter.ts (`isTruthy`, `isEqual`,
    `stringify`). JavaScript's `null` and `undefined` are kept apart
    because `Object.is` tells them apart. */
module Values {
  import opened Basics
  import opened Ast

  /** A function object: its declaration and the environment (an arena
      index, see module Environment) it closes over. */
  datatype LoxFunction = LoxFunction(decl: FunDecl, closure: nat)

  /** A class object: its name and its own methods; there is no superclass
      link because method lookup never follows one. */
  datatype LoxClass = LoxClass(name: string, methods: map<string, LoxFunction>)

  datatype Value =
    | Nil
    | Undef
    | Bool(b: bool)
    | Num(n: real)
    | Str(s: string)
    | Fn(f: LoxFunction)
      /** The result of `method.bind(instance)`, whose body is not part of
          this model: the method together with the receiver's heap id. */
    | BoundMethod(fun: LoxFunction, receiver: nat)
    | Cls(c: LoxClass)
      /** An instance: its heap id (see module Instances) and its class,
          which never changes after construction. */
    | Instance(id: nat, klass: LoxClass)

  /** `LoxFunction.arity`. */
  function FunctionArity(f: LoxFunction): (n: nat)
    ensures n == |f.decl.params|
  {
    |f.decl.params|
  }

  /** The name shown by `toString`: the declared name, or "Anonymous" for a
      function expression whose name lexeme is empty. */
  function DisplayName(f: LoxFunction): (s: string)
    ensures |s| > 0
    ensures f.decl.name.lexeme != "" ==> s == f.decl.name.lexeme
  {
    if f.decl.name.lexeme == "" then "Anonymous" else f.decl.name.lexeme
  }

  /** `LoxFunction.toString`: "<fn NAME>". */
  function FunctionToString(f: LoxFunction): (s: string)
    ensures |s| > 5 && s[..4] == "<fn " && s[|s| - 1] == '>'
    ensures s[4..|s| - 1] == DisplayName(f)
  {
    "<fn " + DisplayName(f) + ">"
  }

  /** `LoxClass.findMethod`: the class's own method of that name, if any. */
  function FindMethod(c: LoxClass, name: string): (r: Option<LoxFunction>)
    ensures r.Some? <==> name in c.methods
    ensures r.Some? ==> r.value == c.methods[name]
  {
    if name in c.methods then Some(c.methods[name]) else None
  }

  /** `LoxClass.arity`: the initializer's arity, or 0 without one. */
  function ClassArity(c: LoxClass): (n: nat)
    ensures "init" !in c.methods ==> n == 0
    ensures "init" in c.methods ==> n == |c.methods["init"].decl.params|
  {
    match FindMethod(c, "init")
    case None => 0
    case Some(init) => FunctionArity(init)
  }

  /** `LoxClass.toString`. */
  function ClassToString(c: LoxClass): (s: string)
  {
    c.name
  }

  /** `LoxInstance.toString`: the class name followed by " instance". */
  function InstanceToString(c: LoxClass): (s: string)
    ensures |s| == |c.name| + 9 && s[..|c.name|] == c.name && s[|c.name|..] == " instance"
  {
    c.name + " instance"
  }

  /** An instance prints as its class's text followed by " instance". Both
      clauses follow by unfolding `Stringify`; the lemma states for the
      reader how the two `toString` methods relate. */
  lemma InstanceTextExtendsClassText(id: nat, c: LoxClass, numText: real -> string)
    ensures Stringify(Instance(id, c), numText) == Stringify(Cls(c), numText) + " instance"
    ensures Stringify(Cls(c), numText) == c.name
  {
  }

  /** The values JavaScript's `!!` maps to false (NaN aside, which the real
      numbers of this model do not contain). */
  predicate Falsy(v: Value) {
    v == Nil || v == Undef || v == Bool(false) || v == Num(0.0) || v == Str("")
  }

  /** `isTruthy`: JavaScript `!!`. */
  function IsTruthy(v: Value): (t: bool)
    ensures t <==> !Falsy(v)
  {
    match v
    case Nil => false
    case Undef => false
    case Bool(b) => b
    case Num(n) => n != 0.0
    case Str(s) => s != ""
    case _ => true
  }

  /** `isEqual`: `Object.is`. Primitives compare by value and instances by
      heap id; see README for how function and class objects compare. */
  function IsEqual(a: Value, b: Value): (r: bool)
    ensures a.Instance? && b.Instance? ==> (r <==> a.id == b.id && a.klass == b.klass)
  {
    a == b
  }

  /** The kind of a value, as JavaScript's `typeof` and the class of the
      object tell them apart. */
  function Kind(v: Value): (k: nat)
    ensures k < 9
    ensures v.Num? <==> k == 3
    ensures v.Str? <==> k == 4
  {
    match v
    case Nil => 0
    case Undef => 1
    case Bool(_) => 2
    case Num(_) => 3
    case Str(_) => 4
    case Fn(_) => 5
    case BoundMethod(_, _) => 6
    case Cls(_) => 7
    case Instance(_, _) => 8
  }

  /** `isEqual` never converts: values of different kinds are unequal even
      when both are falsy (`nil` and `false`, `0` and `""`, `null` and
      `undefined`), and equal values print and test alike. */
  lemma {:induction false} EqualityIsStrict(a: Value, b: Value, numText: real -> string)
    ensures Kind(a) != Kind(b) ==> !IsEqual(a, b)
    ensures IsEqual(a, b) ==> IsTruthy(a) == IsTruthy(b) && Stringify(a, numText) == Stringify(b, numText)
    ensures !IsEqual(Nil, Bool(false)) && !IsEqual(Num(0.0), Str("")) && !IsEqual(Nil, Undef)
  {
  }

  /** JavaScript's SameValue comparison, which `Object.is` performs, written
      out kind by kind: values of different types are never the same;
      `null` and `undefined` are each the same as themselves; booleans and
      numbers compare by value; strings compare by length and code unit
      by code unit; objects are the same only when they are one object.
      A function, bound method or class object is identified by what it
      is made of and an instance by its heap id and class (see README). */
  predicate SameValue(a: Value, b: Value) {
    match (a, b)
    case (Nil, Nil) => true
    case (Undef, Undef) => true
    case (Bool(x), Bool(y)) => x == y
    case (Num(x), Num(y)) => x == y
    case (Str(x), Str(y)) => |x| == |y| && forall i :: 0 <= i < |x| ==> x[i] == y[i]
    case (Fn(f), Fn(g)) => f == g
    case (BoundMethod(f, i), BoundMethod(g, j)) => f == g && i == j
    case (Cls(c), Cls(d)) => c == d
    case (Instance(i, c), Instance(j, d)) => i == j && c == d
    case _ => false
  }

  /** `isEqual` is SameValue: it holds exactly for the pairs the kind by
      kind comparison accepts. */
  lemma IsEqualIsSameValue(a: Value, b: Value)
    ensures IsEqual(a, b) <==> SameValue(a, b)
  {
    if a.Str? && b.Str? && SameValue(a, b) {
      assert a.s == b.s;
    }
  }

  /** A value's `toString()`, or None for `null` and `undefined`, which
      have none. `numText` is JavaScript's number-to-string conversion. */
  function ToText(v: Value, numText: real -> string): (r: Option<string>)
    ensures r.None? <==> v == Nil || v == Undef
    ensures v.Str? ==> r == Some(v.s)
    ensures v.Num? ==> r == Some(numText(v.n))
    ensures v.Bool? ==> r == Some(if v.b then "true" else "false")
  {
    match v
    case Nil => None
    case Undef => None
    case Bool(b) => Some(if b then "true" else "false")
    case Num(n) => Some(numText(n))
    case Str(s) => Some(s)
    case Fn(f) => Some(FunctionToString(f))
    case BoundMethod(m, _) => Some(FunctionToString(m))
    case Cls(c) => Some(ClassToString(c))
    case Instance(_, k) => Some(InstanceToString(k))
  }

  /** `stringify`: "nil" for `null` and `undefined`, else `toString()`. */
  function Stringify(v: Value, numText: real -> string): (s: string)
    ensures v == Nil || v == Undef ==> s == "nil"
    ensures ToText(v, numText).Some? ==> s == ToText(v, numText).value
  {
    match ToText(v, numText)
    case None => "nil"
    case Some(t) => t
  }
}
