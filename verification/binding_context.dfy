/** Values, contexts and scopes that the Call and Ref bindings are bound to. */
module BindingContext {

  /** The JavaScript values a binding reads or writes; `Node(id)` is a DOM node (or any
      object) compared by identity, as `===` compares objects. */
  datatype Value = Null | Undefined | Bool(b: bool) | Num(n: int) | Str(s: string) | Node(id: nat)

  /** A binding context or an override context: property name to value. */
  type Context = map<string, Value>

  /** What a source expression's `evaluate` computes, as a function of the scope's binding
      context and override context. */
  type Evaluator = (Context, Context) -> Value

  /** A property read: a missing property reads as `undefined`. */
  function Lookup(c: Context, name: string): (v: Value)
    ensures name !in c ==> v == Undefined
    ensures name in c ==> v == c[name]
  {
    if name in c then c[name] else Undefined
  }

  /** A scope: the object a binding is bound to. Bindings compare scopes by identity. */
  class Scope {
    var bindingContext: Context
    var overrideContext: Context

    constructor (bindingContext: Context, overrideContext: Context)
      ensures this.bindingContext == bindingContext && this.overrideContext == overrideContext
    {
      this.bindingContext := bindingContext;
      this.overrideContext := overrideContext;
    }
  }
}
