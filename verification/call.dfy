/** The `Call` binding: arms its target property with a callback that evaluates the source
    expression with the call's arguments merged, for that one evaluation, into the scope's
    override context. */
module CallBinding {
  import opened BindingContext

  /** The value a Call writes to its target property: nothing, or the callback that calls
      `callSource` on the given binding. */
  datatype Handler = NoHandler | CallSourceOf(binding: Call)

  /** What `callSource` does: return a value, or throw the TypeError that reading
      `overrideContext` of a missing scope raises. */
  datatype Completion = Normal(value: Value) | TypeError

  /** The target observer (an accessor) of the Call's target property. `writes` records,
      in order, every value `setValue` received. */
  class Accessor {
    var value: Handler
    ghost var writes: seq<Handler>

    constructor ()
      ensures value == NoHandler && writes == []
    {
      value := NoHandler;
      writes := [];
    }

    method SetValue(v: Handler)
      modifies this
      ensures value == v && writes == old(writes) + [v]
    {
      value := v;
      writes := writes + [v];
    }
  }

  class Call {
    var isBound: bool
    var scope: Scope?
    const targetObserver: Accessor
    const sourceExpression: Evaluator

    /** Bound exactly when a scope is held, and the target is armed exactly then. */
    ghost predicate Valid()
      reads this, targetObserver
    {
      && (isBound <==> scope != null)
      && (isBound ==> targetObserver.value == CallSourceOf(this))
      && (!isBound ==> targetObserver.value == NoHandler)
    }

    /** The observer locator is not modelled: the caller hands over the target observer it
        returned for the target property. */
    constructor (sourceExpression: Evaluator, targetObserver: Accessor)
      requires targetObserver.value == NoHandler
      ensures Valid() && !isBound && scope == null
      ensures this.sourceExpression == sourceExpression && this.targetObserver == targetObserver
      ensures targetObserver.writes == old(targetObserver.writes)
    {
      this.sourceExpression := sourceExpression;
      this.targetObserver := targetObserver;
      isBound := false;
      scope := null;
    }

    /** Evaluates the source expression with every argument visible in the override context,
        then deletes every argument key from it (a value it had before under such a key is
        not restored). */
    method CallSource(args: Context) returns (r: Completion)
      modifies scope
      ensures scope == old(scope)
      ensures old(scope) == null ==> r == TypeError
      ensures old(scope) != null ==>
        && r == Normal(sourceExpression(old(scope.bindingContext), old(scope.overrideContext) + args))
        && scope.overrideContext == old(scope.overrideContext) - args.Keys
        && scope.bindingContext == old(scope.bindingContext)
      ensures old(scope) != null && args.Keys !! old(scope.overrideContext).Keys ==>
        scope.overrideContext == old(scope.overrideContext)
    {
      if scope == null {
        return TypeError;
      }
      var s := scope;
      // Object.assign(overrideContext, args)
      s.overrideContext := s.overrideContext + args;
      r := Normal(sourceExpression(s.bindingContext, s.overrideContext));
      // for (const prop in args) delete overrideContext[prop]
      var remaining := args.Keys;
      while remaining != {}
        invariant remaining <= args.Keys
        invariant s.bindingContext == old(s.bindingContext)
        invariant s.overrideContext == (old(s.overrideContext) + args) - (args.Keys - remaining)
        decreases remaining
      {
        var prop :| prop in remaining;
        s.overrideContext := s.overrideContext - {prop};
        remaining := remaining - {prop};
      }
      if args.Keys !! old(s.overrideContext).Keys {
        assert s.overrideContext == old(s.overrideContext);
      }
    }

    method Bind(scope: Scope)
      requires Valid()
      modifies this, targetObserver
      ensures Valid()
      ensures old(isBound) && old(this.scope) == scope ==>
        && isBound && this.scope == scope
        && targetObserver.writes == old(targetObserver.writes)
      ensures old(isBound) && old(this.scope) != scope ==>
        targetObserver.writes == old(targetObserver.writes) + [NoHandler, CallSourceOf(this)]
      ensures !old(isBound) ==> targetObserver.writes == old(targetObserver.writes) + [CallSourceOf(this)]
      ensures isBound && this.scope == scope && targetObserver.value == CallSourceOf(this)
    {
      if isBound {
        if this.scope == scope {
          return;
        }
        Unbind();
      }
      isBound := true;
      this.scope := scope;
      targetObserver.SetValue(CallSourceOf(this));
    }

    method Unbind()
      requires Valid()
      modifies this, targetObserver
      ensures Valid()
      ensures !old(isBound) ==> scope == old(scope) && targetObserver.writes == old(targetObserver.writes)
      ensures old(isBound) ==> targetObserver.writes == old(targetObserver.writes) + [NoHandler]
      ensures !isBound && scope == null && targetObserver.value == NoHandler
    {
      if !isBound {
        return;
      }
      isBound := false;
      scope := null;
      targetObserver.SetValue(NoHandler);
    }

    /** A Call observes nothing: the method changes no state. */
    method ObserveProperty(context: Context, name: string)
      requires Valid()
      ensures Valid() && isBound == old(isBound) && scope == old(scope)
    {
    }
  }

  /** A target armed by `bind` calls back into the binding: while bound, the call sees its
      arguments on top of the override context and leaves the override context without the
      argument keys; a callback kept past `unbind` finds no scope and throws. */
  method CallbackAcrossUnbind(e: Evaluator, bc: Context, oc: Context, args: Context)
    returns (whileBound: Completion, afterCall: Context, afterUnbind: Completion)
    ensures whileBound == Normal(e(bc, oc + args))
    ensures afterCall == oc - args.Keys
    ensures args.Keys !! oc.Keys ==> afterCall == oc
    ensures afterUnbind == TypeError
  {
    var scope := new Scope(bc, oc);
    var target := new Accessor();
    var call := new Call(e, target);
    call.Bind(scope);
    var handler := target.value;
    whileBound := handler.binding.CallSource(args);
    afterCall := scope.overrideContext;
    call.Unbind();
    afterUnbind := handler.binding.CallSource(args);
  }
}
