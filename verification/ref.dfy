/** The `Ref` binding: on bind it stores its target into the location its source expression
    names; on unbind it clears that location, but only while it still holds this target. */
module RefBinding {
  import opened BindingContext

  class Ref {
    var isBound: bool
    var scope: Scope?
    /** The source expression, an assignable scope access: the named slot of the scope's
        binding context that `evaluate` reads and `assign` writes. */
    const slot: string
    const target: Value

    ghost predicate Valid()
      reads this
    {
      isBound <==> scope != null
    }

    constructor (slot: string, target: Value)
      ensures Valid() && !isBound && scope == null
      ensures this.slot == slot && this.target == target
    {
      this.slot := slot;
      this.target := target;
      isBound := false;
      scope := null;
    }

    /** `sourceExpression.evaluate` against a scope. */
    function Evaluate(s: Scope): (v: Value)
      reads s
      ensures slot in s.bindingContext ==> v == s.bindingContext[slot]
      ensures slot !in s.bindingContext ==> v == Undefined
    {
      Lookup(s.bindingContext, slot)
    }

    /** `sourceExpression.assign` against a scope. */
    method Assign(s: Scope, v: Value)
      modifies s
      ensures s.bindingContext == old(s.bindingContext)[slot := v]
      ensures Evaluate(s) == v
      ensures s.overrideContext == old(s.overrideContext)
    {
      s.bindingContext := s.bindingContext[slot := v];
    }

    method Bind(scope: Scope)
      requires Valid()
      modifies this, scope, this.scope
      ensures Valid() && isBound && this.scope == scope
      ensures old(isBound) && old(this.scope) == scope ==>
        scope.bindingContext == old(scope.bindingContext)
      ensures !(old(isBound) && old(this.scope) == scope) ==>
        scope.bindingContext == old(scope.bindingContext)[slot := target]
      ensures Evaluate(scope) == target || (old(isBound) && old(this.scope) == scope)
      ensures old(isBound) && old(this.scope) != scope ==>
        old(this.scope).bindingContext ==
          if old(Evaluate(this.scope)) == target then old(this.scope.bindingContext)[slot := Null]
          else old(this.scope.bindingContext)
      ensures old(isBound) && old(this.scope) != scope ==>
        old(this.scope).overrideContext == old(this.scope.overrideContext)
      ensures scope.overrideContext == old(scope.overrideContext)
    {
      if isBound {
        if this.scope == scope {
          return;
        }
        Unbind();
      }
      isBound := true;
      this.scope := scope;
      Assign(scope, target);
    }

    method Unbind()
      requires Valid()
      modifies this, this.scope
      ensures Valid() && !isBound && scope == null
      ensures old(isBound) ==>
        old(scope).bindingContext ==
          if old(Evaluate(scope)) == target then old(scope.bindingContext)[slot := Null]
          else old(scope.bindingContext)
      ensures old(isBound) ==> old(scope).overrideContext == old(scope.overrideContext)
    {
      if !isBound {
        return;
      }
      isBound := false;
      if Evaluate(scope) == target {
        Assign(scope, Null);
      }
      scope := null;
    }

    /** A Ref observes nothing: the method changes no state. */
    method ObserveProperty(context: Context, name: string)
      requires Valid()
      ensures Valid() && isBound == old(isBound) && scope == old(scope)
    {
    }
  }

  /** One ref bound and unbound on a fresh scope: the slot holds the target while bound and
      null afterwards. */
  method BindThenUnbind(bc: Context, slot: string, x: Value) returns (whileBound: Value, afterUnbind: Value)
    ensures whileBound == x && afterUnbind == Null
  {
    var scope := new Scope(bc, map[]);
    var r := new Ref(slot, x);
    r.Bind(scope);
    whileBound := r.Evaluate(scope);
    r.Unbind();
    afterUnbind := r.Evaluate(scope);
  }

  /** Bind ref A (target x) and then ref B (target y) to the same slot of one scope, then
      unbind A: the slot keeps y, unless both refs hold the same target, in which case A's
      unbind sees its own target and clears the slot. Nothing else in the context changes. */
  method NewerRefWins(bc: Context, slot: string, x: Value, y: Value) returns (after: Context)
    ensures slot in after && after[slot] == (if x == y then Null else y)
    ensures forall k :: k in bc && k != slot ==> k in after && after[k] == bc[k]
    ensures after.Keys == bc.Keys + {slot}
  {
    var scope := new Scope(bc, map[]);
    var a := new Ref(slot, x);
    var b := new Ref(slot, y);
    a.Bind(scope);
    assert scope.bindingContext == bc[slot := x];
    b.Bind(scope);
    assert scope.bindingContext == bc[slot := y];
    a.Unbind();
    after := scope.bindingContext;
  }
}
