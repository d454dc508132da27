/** The environment chain of src/jlox/environment.ts. Environments live in
    an arena: a `Store` is a sequence of frames, a frame's `enclosing` link
    is an index, and an environment is named by the index of its innermost
    frame. Links always point to a lower index (`Linked`), which is what
    makes the chain walk terminate. The store is generic in the value type,
    as the source's maps hold `any`. */
module Environment {
  import opened Basics
  import opened Tokens

  datatype Frame<V> = Frame(values: map<string, V>, enclosing: Option<nat>)

  type Store<V> = seq<Frame<V>>

  /** Every `enclosing` link points to an earlier frame. */
  predicate Linked<V>(store: Store<V>) {
    forall i :: 0 <= i < |store| && store[i].enclosing.Some? ==> store[i].enclosing.value < i
  }

  /** The frames met when walking outward from `env`, innermost first. */
  function Chain<V>(store: Store<V>, env: nat): (c: seq<nat>)
    requires Linked(store) && env < |store|
    ensures |c| >= 1 && c[0] == env
    ensures forall k :: 0 <= k < |c| ==> c[k] < |store| && c[k] <= env
    ensures forall k :: 0 <= k < |c| - 1 ==> store[c[k]].enclosing == Some(c[k + 1])
    ensures store[c[|c| - 1]].enclosing.None?
    decreases env
  {
    match store[env].enclosing
    case None => [env]
    case Some(p) => [env] + Chain(store, p)
  }

  /** The `k`-th frame of the chain from `env` binds `name`. */
  predicate HoldsAt<V>(store: Store<V>, env: nat, name: string, k: nat)
    requires Linked(store) && env < |store|
  {
    k < |Chain(store, env)| && name in store[Chain(store, env)[k]].values
  }

  /** The `k`-th frame of the chain is the innermost one binding `name`. */
  predicate Innermost<V>(store: Store<V>, env: nat, name: string, k: nat)
    requires Linked(store) && env < |store|
  {
    HoldsAt(store, env, name, k) && forall j :: 0 <= j < k ==> !HoldsAt(store, env, name, j)
  }

  /** Some frame of the chain from `env` binds `name`. */
  predicate Bound<V>(store: Store<V>, env: nat, name: string)
    requires Linked(store) && env < |store|
  {
    exists k: nat :: k < |Chain(store, env)| && HoldsAt(store, env, name, k)
  }

  function UndefinedVariable(name: Token): (m: string)
    ensures m == "Undefined variable '" + name.lexeme + "'."
  {
    "Undefined variable '" + name.lexeme + "'."
  }

  datatype Lookup<V> = Found(value: V) | Undefined(token: Token, message: string)

  /** `Environment.get`: the value in the first frame of the chain that
      binds the name, or the undefined-variable error naming the token. */
  function Get<V>(store: Store<V>, env: nat, name: Token): (r: Lookup<V>)
    requires Linked(store) && env < |store|
    ensures r.Undefined? ==> r == Undefined(name, UndefinedVariable(name))
    ensures name.lexeme in store[env].values ==> r == Found(store[env].values[name.lexeme])
    decreases env
  {
    if name.lexeme in store[env].values then Found(store[env].values[name.lexeme])
    else match store[env].enclosing
      case None => Undefined(name, UndefinedVariable(name))
      case Some(p) => Get(store, p, name)
  }

  /** The chain from a frame with a parent is the frame followed by the
      parent's chain, so position `j + 1` of the one is position `j` of the
      other. */
  lemma HoldsPastFirst<V>(store: Store<V>, env: nat, p: nat, name: string)
    requires Linked(store) && env < |store| && store[env].enclosing == Some(p)
    ensures forall j: nat :: HoldsAt(store, env, name, j + 1) <==> HoldsAt(store, p, name, j)
  {
    var c := Chain(store, env);
    var cp := Chain(store, p);
    assert c == [env] + cp;
    forall j: nat ensures HoldsAt(store, env, name, j + 1) <==> HoldsAt(store, p, name, j) {
      if j < |cp| { assert c[j + 1] == cp[j]; }
    }
  }

  /** Past a frame that does not bind `name`, the innermost holder in the
      chain from `env` is the innermost holder from its parent, one
      position later. */
  lemma {:induction false} PastFirstFrame<V>(store: Store<V>, env: nat, p: nat, name: string)
    requires Linked(store) && env < |store| && store[env].enclosing == Some(p)
    requires name !in store[env].values
    ensures forall k: nat :: Innermost(store, p, name, k) ==> Innermost(store, env, name, k + 1)
    ensures Bound(store, env, name) <==> Bound(store, p, name)
  {
    HoldsPastFirst(store, env, p, name);
    forall k: nat | Innermost(store, p, name, k) ensures Innermost(store, env, name, k + 1) {
      forall j | 0 <= j < k + 1 ensures !HoldsAt(store, env, name, j) {
        if j > 0 { assert !HoldsAt(store, p, name, j - 1); }
      }
    }
    if Bound(store, env, name) {
      var k: nat :| k < |Chain(store, env)| && HoldsAt(store, env, name, k);
      assert HoldsAt(store, p, name, k - 1);
    }
  }

  /** `get` fails exactly when no frame of the chain binds the name, and
      otherwise returns the binding of the innermost frame that does. */
  lemma {:induction false} GetFindsInnermost<V>(store: Store<V>, env: nat, name: Token)
    requires Linked(store) && env < |store|
    ensures Get(store, env, name).Found? <==> Bound(store, env, name.lexeme)
    ensures Get(store, env, name).Found? ==>
      exists k: nat :: Innermost(store, env, name.lexeme, k) &&
        Get(store, env, name).value == store[Chain(store, env)[k]].values[name.lexeme]
    decreases env
  {
    if name.lexeme in store[env].values {
      assert Innermost(store, env, name.lexeme, 0);
    } else {
      match store[env].enclosing
      case None =>
        assert Chain(store, env) == [env];
      case Some(p) =>
        GetFindsInnermost(store, p, name);
        PastFirstFrame(store, env, p, name.lexeme);
        if Bound(store, p, name.lexeme) {
          var k: nat :| Innermost(store, p, name.lexeme, k) &&
            Get(store, p, name).value == store[Chain(store, p)[k]].values[name.lexeme];
          assert Innermost(store, env, name.lexeme, k + 1);
        }
    }
  }

  /** `Environment.define`: bind (or rebind) a name in the frame `env`. */
  function Define<V>(store: Store<V>, env: nat, name: string, value: V): (r: Store<V>)
    requires env < |store|
    ensures |r| == |store|
    ensures r[env].values == store[env].values[name := value]
    ensures forall i :: 0 <= i < |r| ==> r[i].enclosing == store[i].enclosing
    ensures forall i :: 0 <= i < |r| && i != env ==> r[i] == store[i]
  {
    store[env := store[env].(values := store[env].values[name := value])]
  }

  /** Frames that keep their links keep their chains. */
  lemma {:induction false} ChainKeepsLinks<V>(store: Store<V>, store': Store<V>, env: nat)
    requires Linked(store) && env < |store| && |store'| == |store|
    requires forall i :: 0 <= i < |store| ==> store'[i].enclosing == store[i].enclosing
    ensures Linked(store')
    ensures Chain(store', env) == Chain(store, env)
    decreases env
  {
    match store[env].enclosing
    case None =>
    case Some(p) => ChainKeepsLinks(store, store', p);
  }

  /** After `define(n, v)`, `get(n)` on the same environment yields `v`. */
  lemma GetAfterDefine<V>(store: Store<V>, env: nat, name: Token, value: V)
    requires Linked(store) && env < |store|
    ensures Linked(Define(store, env, name.lexeme, value))
    ensures Get(Define(store, env, name.lexeme, value), env, name) == Found(value)
  {
    ChainKeepsLinks(store, Define(store, env, name.lexeme, value), env);
  }

  datatype Assigned<V> = Updated(store: Store<V>) | Unbound(token: Token, message: string)

  /** `Environment.assign`: overwrite the binding in the first frame of the
      chain that holds the name; never create one. */
  function Assign<V>(store: Store<V>, env: nat, name: Token, value: V): (r: Assigned<V>)
    requires Linked(store) && env < |store|
    ensures r.Unbound? ==> r == Unbound(name, UndefinedVariable(name))
    ensures r.Updated? ==> |r.store| == |store|
    ensures r.Updated? ==> forall i :: 0 <= i < |store| ==>
      r.store[i].enclosing == store[i].enclosing && r.store[i].values.Keys == store[i].values.Keys
    ensures r.Updated? ==> forall i :: 0 <= i < |store| && i > env ==> r.store[i] == store[i]
    ensures r.Updated? ==> Linked(r.store)
    decreases env
  {
    if name.lexeme in store[env].values then
      Updated(store[env := store[env].(values := store[env].values[name.lexeme := value])])
    else match store[env].enclosing
      case None => Unbound(name, UndefinedVariable(name))
      case Some(p) => Assign(store, p, name, value)
  }

  /** `assign` fails exactly when `get` does, and otherwise rewrites the
      innermost holder of the name and nothing else. */
  lemma {:induction false} AssignUpdatesInnermost<V>(store: Store<V>, env: nat, name: Token, value: V)
    requires Linked(store) && env < |store|
    ensures Assign(store, env, name, value).Updated? <==> Get(store, env, name).Found?
    ensures Assign(store, env, name, value).Updated? ==>
      exists k: nat :: Innermost(store, env, name.lexeme, k) &&
        var h := Chain(store, env)[k];
        Assign(store, env, name, value).store == store[h := store[h].(values := store[h].values[name.lexeme := value])]
    decreases env
  {
    if name.lexeme in store[env].values {
      assert Innermost(store, env, name.lexeme, 0);
    } else {
      match store[env].enclosing
      case None =>
      case Some(p) =>
        AssignUpdatesInnermost(store, p, name, value);
        if Assign(store, p, name, value).Updated? {
          PastFirstFrame(store, env, p, name.lexeme);
          var k: nat :| Innermost(store, p, name.lexeme, k) &&
            var h := Chain(store, p)[k];
            Assign(store, p, name, value).store == store[h := store[h].(values := store[h].values[name.lexeme := value])];
          assert Innermost(store, env, name.lexeme, k + 1);
        }
    }
  }

  /** `new Environment(enclosing)`: a fresh, empty frame linked to `env`;
      its handle is the old length of the store. */
  function NewChild<V>(store: Store<V>, env: nat): (r: Store<V>)
    requires Linked(store) && env < |store|
    ensures |r| == |store| + 1 && r[..|store|] == store
    ensures r[|store|] == Frame(map[], Some(env))
    ensures Linked(r)
  {
    store + [Frame(map[], Some(env))]
  }

  /** Appending frames leaves every existing chain as it was. */
  lemma {:induction false} ChainGrows<V>(store: Store<V>, store': Store<V>, env: nat)
    requires Linked(store) && Linked(store') && env < |store| <= |store'|
    requires store'[..|store|] == store
    ensures Chain(store', env) == Chain(store, env)
    decreases env
  {
    assert store'[env] == store[env];
    match store[env].enclosing
    case None =>
    case Some(p) => ChainGrows(store, store', p);
  }

  /** A fresh child's chain is the child followed by its parent's chain, so
      lookups through the child see exactly what the parent sees until the
      child binds something. */
  lemma ChildChain<V>(store: Store<V>, env: nat)
    requires Linked(store) && env < |store|
    ensures Chain(NewChild(store, env), |store|) == [|store|] + Chain(store, env)
  {
    ChainGrows(store, NewChild(store, env), env);
  }

  /** Lookups through an empty child frame see the parent's bindings. */
  lemma {:induction false} GetThroughChild<V>(store: Store<V>, env: nat, name: Token)
    requires Linked(store) && env < |store|
    ensures Get(NewChild(store, env), |store|, name) == Get(store, env, name)
  {
    var r := NewChild(store, env);
    GetGrows(store, r, env, name);
  }

  /** Appending frames does not change lookups from existing environments. */
  lemma {:induction false} GetGrows<V>(store: Store<V>, store': Store<V>, env: nat, name: Token)
    requires Linked(store) && Linked(store') && env < |store| <= |store'|
    requires store'[..|store|] == store
    ensures Get(store', env, name) == Get(store, env, name)
    decreases env
  {
    assert store'[env] == store[env];
    match store[env].enclosing
    case None =>
    case Some(p) => GetGrows(store, store', p, name);
  }
}
