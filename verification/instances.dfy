/** `LoxInstance` of src/jlox/lox-instance.ts. Instance objects live in a
    heap: `heap[id]` is the field map of the instance with that id, and a
    `Value.Instance(id, klass)` is a reference to it. The class travels in
    the reference, so no operation can change it. */
module Instances {
  import opened Basics
  import opened Tokens
  import opened Values

  type Heap = seq<map<string, Value>>

  /** A reference to an instance that exists in the heap. */
  predicate Live(heap: Heap, v: Value) {
    v.Instance? && v.id < |heap|
  }

  /** `new LoxInstance(klass)`: a fresh instance with no fields. */
  function NewInstance(heap: Heap, klass: LoxClass): (r: (Heap, Value))
    ensures r.1 == Instance(|heap|, klass) && Live(r.0, r.1)
    ensures r.0 == heap + [map[]]
  {
    (heap + [map[]], Instance(|heap|, klass))
  }

  datatype Property = Property(value: Value) | NoProperty(token: Token, message: string)

  /** `LoxInstance.get`: an own field first, then the class's own method
      bound to this instance, else the undefined-property error. */
  function InstanceGet(heap: Heap, inst: Value, name: Token): (r: Property)
    requires Live(heap, inst)
    ensures name.lexeme in heap[inst.id] ==> r == Property(heap[inst.id][name.lexeme])
    ensures name.lexeme !in heap[inst.id] && name.lexeme in inst.klass.methods ==>
      r == Property(BoundMethod(inst.klass.methods[name.lexeme], inst.id))
    ensures r.NoProperty? <==> name.lexeme !in heap[inst.id] && name.lexeme !in inst.klass.methods
    ensures r.NoProperty? ==> r.token == name && r.message == "Undefined property '" + name.lexeme + "'."
  {
    if name.lexeme in heap[inst.id] then Property(heap[inst.id][name.lexeme])
    else match FindMethod(inst.klass, name.lexeme)
      case Some(m) => Property(BoundMethod(m, inst.id))
      case None => NoProperty(name, "Undefined property '" + name.lexeme + "'.")
  }

  /** `LoxInstance.set`: write one field of one instance. */
  function InstanceSet(heap: Heap, inst: Value, name: Token, value: Value): (r: Heap)
    requires Live(heap, inst)
    ensures |r| == |heap| && Live(r, inst)
    ensures r[inst.id] == heap[inst.id][name.lexeme := value]
    ensures forall i :: 0 <= i < |heap| && i != inst.id ==> r[i] == heap[i]
  {
    heap[inst.id := heap[inst.id][name.lexeme := value]]
  }

  /** A later `get` of a field just set returns the stored value, even
      when the class has a method of that name. */
  lemma GetAfterSet(heap: Heap, inst: Value, name: Token, value: Value)
    requires Live(heap, inst)
    ensures InstanceGet(InstanceSet(heap, inst, name, value), inst, name) == Property(value)
  {
  }

  /** Setting a field leaves every other property of every instance as it
      was, methods included. */
  lemma SetKeepsOtherProperties(heap: Heap, inst: Value, name: Token, value: Value, other: Value, name': Token)
    requires Live(heap, inst) && Live(heap, other)
    requires other.id != inst.id || name'.lexeme != name.lexeme
    ensures InstanceGet(InstanceSet(heap, inst, name, value), other, name') == InstanceGet(heap, other, name')
  {
  }

  /** A new instance has no fields: every property read on it finds the
      class's method of that name, bound to it, or fails as undefined. */
  lemma NewInstanceHasOnlyMethods(heap: Heap, klass: LoxClass, name: Token)
    ensures var (heap', inst) := NewInstance(heap, klass);
      InstanceGet(heap', inst, name) ==
        if name.lexeme in klass.methods then Property(BoundMethod(klass.methods[name.lexeme], |heap|))
        else NoProperty(name, "Undefined property '" + name.lexeme + "'.")
  {
  }

  /** Making an instance changes no property of any existing one. */
  lemma NewInstanceKeepsOthers(heap: Heap, klass: LoxClass, other: Value, name: Token)
    requires Live(heap, other)
    ensures var (heap', inst) := NewInstance(heap, klass);
      Live(heap', other) && other != inst && InstanceGet(heap', other, name) == InstanceGet(heap, other, name)
  {
  }
}
