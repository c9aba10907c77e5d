# Call, Ref and set observation in the Aurelia runtime

This project models three pieces of the Aurelia runtime in Dafny and proves properties of them:

* **The `Call` binding** (`packages/runtime/src/binding/call.ts`). Binding arms the target
  property's accessor with a callback. The callback evaluates the source expression with the
  call's arguments merged into the scope's override context, then deletes those keys again.
  Unbinding disarms the target. Binding again to the identical scope does nothing. Binding to
  a different scope unbinds first.
* **The `Ref` binding** (`packages/runtime/src/binding/ref.ts`). Binding assigns the target
  into the location named by the source expression. Unbinding clears that location to
  `null`, but only while it still holds this binding's target, so a newer ref to the same
  location wins.
* **Set observation and index-map replay** (`packages/runtime/test/observation/set-observer.spec.ts`).
  A set observer intercepts `add`, `delete` and `clear` on one `Set` and keeps an index map.
  The index map holds one slot per entry, either its position at the last reset or `-2` for
  "newly inserted", plus the list of prior positions of deleted entries. `synchronize` uses
  the index map to bring a stale copy up to date: it collects the copy's entries at the
  deleted positions, deletes them, then adds every entry of the live set whose slot is `-2`.

Modules and files:

| file | module | contents |
|---|---|---|
| `binding_context.dfy` | `BindingContext` | JavaScript values, contexts, scopes |
| `call.dfy` | `CallBinding` | the target accessor, the `Call` class, one client scenario |
| `ref.dfy` | `RefBinding` | the `Ref` class and two client scenarios |
| `ordered_set.dfy` | `OrderedSets` | an insertion-ordered set with `Set.add`/`delete`/`clear` semantics |
| `index_map_replay.dfy` | `IndexMapReplay` | the index map, `synchronize` as a specification function and as the in-place three-phase method |
| `index_map_tracking.dfy` | `IndexMapTracking` | the invariant `Tracks`, which each mutation and each reset keeps, and the theorem that replay reproduces the live set |
| `set_observer.dfy` | `SetObservation` | the `SetObserver` class: patched mutations, subscribers, flush |
| `set_observer_spec.dfy` | `SetObserverSpec` | `incrementItems` and each test scenario as a method with its expectation as a postcondition |

The main result is `IndexMapTracking.ReplayReproducesLive`. Suppose the observer was reset
when the set equalled a snapshot, and the set has since gone through any sequence of adds,
deletes and clears. Then replaying the observer's index map onto the snapshot yields the
live set exactly, entry for entry and in the same order. `SetObserver.Valid()` keeps the
invariant `Tracks(snapshot, live, indexMap)`:

* each slot is `-2`, or the snapshot position of the same entry;
* carried-over entries come before newly inserted ones;
* deleting the snapshot entries at the deleted positions leaves exactly the carried-over
  entries.

Every observer method preserves `Valid()`. `SetObserverSpec.TracksChanges` combines these
facts for the test loop: mutate, synchronize, reset, for any number of rounds.

## Model

| member | source | states |
|---|---|---|
| CallBinding.Accessor.SetValue | packages/runtime/src/binding/call.ts:52 | the accessor holds the written value, and the write is appended to its history |
| CallBinding.Call.constructor | packages/runtime/src/binding/call.ts:12-24 | a new Call is unbound, has no scope, and keeps its source expression and target observer |
| CallBinding.Call.CallSource | packages/runtime/src/binding/call.ts:26-36 | without a scope it throws. Otherwise it evaluates the expression on the binding context and on the override context with the arguments laid over it. Afterwards the override context has lost every argument key and the binding context is untouched. When the argument keys were not in the override context before, it is exactly restored |
| CallBinding.Call.Bind | packages/runtime/src/binding/call.ts:38-53 | bound to the identical scope: no write to the target. Bound to another scope: the target is first disarmed (`null`), then armed. Unbound: the target is armed once. Afterwards the call is bound to the scope and the target holds its callback |
| CallBinding.Call.Unbind | packages/runtime/src/binding/call.ts:55-66 | unbound already: nothing is written. Bound: exactly one `null` write. Afterwards the call is unbound, holds no scope and the target is disarmed |
| CallBinding.Call.ObserveProperty | packages/runtime/src/binding/call.ts:68-69 | changes nothing |
| CallBinding.CallbackAcrossUnbind | packages/runtime/src/binding/call.ts:26-66 | the callback armed by bind evaluates with the arguments over the override context. It leaves the override context minus the argument keys, which equals the old context when the keys were disjoint. Called again after unbind, the same callback throws |
| RefBinding.Ref.constructor | packages/runtime/src/binding/ref.ts:13-17 | a new Ref is unbound and keeps its location and target |
| RefBinding.Ref.Evaluate | packages/runtime/src/binding/ref.ts:43 | reading the ref's location gives the stored value, or `undefined` when it is missing |
| RefBinding.Ref.Assign | packages/runtime/src/binding/ref.ts:33 | writing the location changes exactly that key of the binding context. Reading it back gives the written value |
| RefBinding.Ref.Bind | packages/runtime/src/binding/ref.ts:19-34 | bound to the identical scope: nothing changes. Otherwise the target is stored in the new scope's location. If bound before, the old scope's location is cleared to `null` exactly when it still held the target, and the old scope's override context is left unchanged. The new scope's override context is unchanged too |
| RefBinding.Ref.Unbind | packages/runtime/src/binding/ref.ts:36-50 | when bound: the location becomes `null` if and only if it still held this ref's target, and is unchanged otherwise. Afterwards the ref is unbound with no scope |
| RefBinding.Ref.ObserveProperty | packages/runtime/src/binding/ref.ts:52 | changes nothing |
| RefBinding.BindThenUnbind | packages/runtime/src/binding/ref.ts:19-50 | on a fresh scope the location holds the target while bound and `null` after unbind |
| RefBinding.NewerRefWins | packages/runtime/src/binding/ref.ts:43-45 | bind ref A (target x), bind ref B (target y) on the same location, unbind A: the location holds y, or `null` when x == y. Every other key is unchanged |
| OrderedSets.NativeAdd | packages/runtime/test/observation/set-observer.spec.ts:133-136 | `Set.add` of a present entry changes nothing. An absent entry is appended at the end, and the existing entries keep their order |
| OrderedSets.NativeAddIsSetAdd | packages/runtime/test/observation/set-observer.spec.ts:133-136 | the result of `add` is again a set, and its members are exactly the old members plus the added entry |
| OrderedSets.Remove | packages/runtime/test/observation/set-observer.spec.ts:194-197 | removing an absent entry changes nothing |
| OrderedSets.RemoveIsSetDelete | packages/runtime/test/observation/set-observer.spec.ts:194-197 | after `delete` the members are exactly the old members except the deleted one. A set stays a set, and deleting a present entry shrinks it by one |
| OrderedSets.NativeDelete | packages/runtime/test/observation/set-observer.spec.ts:194-197 | `Set.delete` reports true if and only if the entry was present, and changes nothing when it reports false |
| OrderedSets.RemoveAt | packages/runtime/test/observation/set-observer.spec.ts:194-197 | deleting the entry at position i of a set is splicing out position i |
| OrderedSets.OrderedSet.Add | packages/runtime/test/observation/set-observer.spec.ts:299 | the set's entries become `NativeAdd` of the old entries and stay distinct |
| OrderedSets.OrderedSet.Delete | packages/runtime/test/observation/set-observer.spec.ts:294 | result and entries are `NativeDelete` of the old entries, and stay distinct |
| OrderedSets.OrderedSet.Clear | packages/runtime/test/observation/set-observer.spec.ts:245-246 | the set is empty |
| IndexMapReplay.Identity | packages/runtime/test/observation/set-observer.spec.ts:164 | after a reset, slot i holds i for each entry and nothing is recorded as deleted |
| IndexMapReplay.Synchronized | packages/runtime/test/observation/set-observer.spec.ts:277-303 | the reference definition of `synchronize`: when both sets are empty the result is empty, and otherwise every entry of the result is an entry of the old set or of the new set |
| IndexMapReplay.SynchronizedMembers | packages/runtime/test/observation/set-observer.spec.ts:283-302 | an entry is in the replay if and only if it is an old entry whose position is not deleted, or a new-set entry whose slot is `-2` |
| IndexMapReplay.SynchronizedIsASet | packages/runtime/test/observation/set-observer.spec.ts:277-303 | replaying onto a set yields a set |
| IndexMapReplay.RemoveAllIsFilterOut | packages/runtime/test/observation/set-observer.spec.ts:293-295 | deleting the collected entries one after another keeps exactly the uncollected entries, in their old order |
| IndexMapReplay.SurvivorsAreUndeleted | packages/runtime/test/observation/set-observer.spec.ts:282-295 | collect-then-delete keeps an old entry if and only if its position is not among the deleted positions. Positions refer to the order before any removal, the kept entries keep their old order, and nothing new appears |
| IndexMapReplay.AddAllAppends | packages/runtime/test/observation/set-observer.spec.ts:296-302 | adding pairwise-distinct absent entries appends them in the order they are added |
| IndexMapReplay.SynchronizedAppendsInserted | packages/runtime/test/observation/set-observer.spec.ts:277-303 | unless both sets are empty, and provided no inserted entry survives deletion, the replay is the survivors followed by the live set's `-2` entries in live order |
| IndexMapReplay.CollectTargets | packages/runtime/test/observation/set-observer.spec.ts:282-292 | the nested loops collect, for each deleted position in list order, the copy's entry at that position. A position outside the copy collects nothing |
| IndexMapReplay.DeleteAll | packages/runtime/test/observation/set-observer.spec.ts:293-295 | the copy becomes the old copy with the collected entries deleted one after another |
| IndexMapReplay.AddInserted | packages/runtime/test/observation/set-observer.spec.ts:296-302 | the copy becomes the old copy with every live entry whose slot is `-2` added in live order. An entry past the end of the slots has no slot and is not added |
| IndexMapReplay.Synchronize | packages/runtime/test/observation/set-observer.spec.ts:277-303 | the copy after the in-place replay equals the `Synchronized` specification: untouched when both sets are empty, otherwise collect, delete, add |
| IndexMapTracking.AfterDelete | packages/runtime/test/observation/set-observer.spec.ts:282-295 | deleting position i splices out slot i and keeps the other slots in order. The slot's prior index is recorded as deleted exactly when it has one (`> -1`) |
| IndexMapTracking.KeptSlots | packages/runtime/test/observation/set-observer.spec.ts:282-295 | only prior indices (`> -1`) are kept, never more than there are slots |
| IndexMapTracking.IndexOf | packages/runtime/test/observation/set-observer.spec.ts:194-197 | the first position at which the entry occurs |
| IndexMapTracking.TracksAfterReset | packages/runtime/test/observation/set-observer.spec.ts:164 | a reset establishes the invariant: snapshot = live set, identity map, nothing deleted |
| IndexMapTracking.TracksAfterAdd | packages/runtime/test/observation/set-observer.spec.ts:147-167 | adding an absent entry with a `-2` slot appended keeps the invariant |
| IndexMapTracking.TracksAfterDelete | packages/runtime/test/observation/set-observer.spec.ts:208-228 | deleting the entry at any position, with the index map updated by `AfterDelete`, keeps the invariant |
| IndexMapTracking.TracksAfterClear | packages/runtime/test/observation/set-observer.spec.ts:253-265 | clearing keeps the invariant when the slots are emptied and every prior index among them is recorded as deleted |
| IndexMapTracking.ReplayReproducesLive | packages/runtime/test/observation/set-observer.spec.ts:162-163 | under the invariant, replaying the index map onto the snapshot yields exactly the live set, in the same order |
| SetObservation.Changes | packages/runtime/test/observation/set-observer.spec.ts:56 | one immediate notification per subscriber, addressed to that subscriber, in subscription order |
| SetObservation.BatchedChanges | packages/runtime/test/observation/set-observer.spec.ts:82 | one batched notification per batched subscriber, addressed to that subscriber, in subscription order |
| SetObservation.NotSubscribedNotNotified | packages/runtime/test/observation/set-observer.spec.ts:68 | a subscriber not in the list receives none of the notifications |
| SetObservation.Subscribed | packages/runtime/test/observation/set-observer.spec.ts:54 | after subscribing, the subscriber is in the list, earlier subscribers stay, and the list grows by at most one |
| SetObservation.PriorIndices | packages/runtime/test/observation/set-observer.spec.ts:253-265 | clear's walk over the slots keeps exactly the prior indices, in slot order |
| SetObservation.SetObserver.constructor | packages/runtime/test/observation/set-observer.spec.ts:53 | observing a set leaves it unchanged, with an identity index map and no subscribers |
| SetObservation.SetObserver.Add | packages/runtime/test/observation/set-observer.spec.ts:127-143 | behaves as native `add` and keeps the invariant. A new entry appends a `-2` slot and notifies every immediate subscriber with `('add', [x])`. Adding a present entry changes nothing else |
| SetObservation.SetObserver.Delete | packages/runtime/test/observation/set-observer.spec.ts:188-203 | behaves as native `delete` (same result and entries) and keeps the invariant. When found, the index map is updated by `AfterDelete` at the entry's position and the subscribers are told `('delete', [x])`. Otherwise nothing else changes |
| SetObservation.SetObserver.Clear | packages/runtime/test/observation/set-observer.spec.ts:244-248 | behaves as native `clear` and keeps the invariant. On a non-empty set the prior indices are recorded as deleted, the slots are emptied and subscribers are told `('clear', [])`. On an empty set nothing else changes |
| SetObservation.SetObserver.ResetIndexMap | packages/runtime/test/observation/set-observer.spec.ts:164 | the index map becomes the identity over the current set, which becomes the new snapshot |
| SetObservation.SetObserver.Subscribe | packages/runtime/test/observation/set-observer.spec.ts:54 | the subscriber joins the immediate subscribers; nothing else changes |
| SetObservation.SetObserver.Unsubscribe | packages/runtime/test/observation/set-observer.spec.ts:66 | the subscriber leaves the immediate subscribers; nothing else changes |
| SetObservation.SetObserver.SubscribeBatched | packages/runtime/test/observation/set-observer.spec.ts:77 | the subscriber joins the batched subscribers; nothing else changes |
| SetObservation.SetObserver.UnsubscribeBatched | packages/runtime/test/observation/set-observer.spec.ts:92 | the subscriber leaves the batched subscribers; nothing else changes |
| SetObservation.SetObserver.Flush | packages/runtime/test/observation/set-observer.spec.ts:99-108 | every batched subscriber receives the current index map, whether or not anything changed. The index map is not reset |
| SetObserverSpec.Bumped | packages/runtime/test/observation/set-observer.spec.ts:305-317 | bumping keeps the number of items |
| SetObserverSpec.BumpedTwice | packages/runtime/test/observation/set-observer.spec.ts:153-154 | two bumps are one bump by the sum, so round i sees the items bumped by 0 + 1 + ... + i |
| SetObserverSpec.BumpedByNothing | packages/runtime/test/observation/set-observer.spec.ts:154 | a bump by 0 (round 0) leaves the items unchanged |
| SetObserverSpec.IncrementItems | packages/runtime/test/observation/set-observer.spec.ts:305-317 | an undefined list is left alone. Otherwise every number is increased by the amount and every other item is unchanged |
| SetObserverSpec.NativeRound | packages/runtime/test/observation/set-observer.spec.ts:128-137 | one round on a native set, one call per item (one call with `undefined` when there are no items). Adding leaves exactly the old members and the arguments, deleting (lines 190-198) exactly the old members that are not arguments, and clearing (line 245) nothing |
| SetObserverSpec.NativeRounds | packages/runtime/test/observation/set-observer.spec.ts:126-143 | the native set after `repeat` rounds. Zero rounds leave it as it was, any round of clearing leaves it empty, rounds of adding keep every initial member, and rounds of deleting add none |
| SetObserverSpec.NativeRoundsDistinct | packages/runtime/test/observation/set-observer.spec.ts:180-206 | a native set stays a set through any number of add, delete or clear rounds |
| SetObserverSpec.CopyItems | packages/runtime/test/observation/set-observer.spec.ts:122 | the test's `items && items.slice()`: a fresh copy of the items, or undefined |
| SetObserverSpec.BumpItems | packages/runtime/test/observation/set-observer.spec.ts:128 | `incrementItems(newItems, i)` at round i turns the items bumped by 0 + ... + (i - 1) into the items bumped by 0 + ... + i |
| SetObserverSpec.ObservedRound | packages/runtime/test/observation/set-observer.spec.ts:155-161 | one round through the observer has the native round's effect on the observed set and keeps the invariant against the same snapshot |
| SetObserverSpec.NativeRoundOn | packages/runtime/test/observation/set-observer.spec.ts:129-137 | one round on an unobserved set has the native round's effect |
| SetObserverSpec.ComparedRound | packages/runtime/test/observation/set-observer.spec.ts:127-143 | one `behaves as native` round has the native effect on both sets |
| SetObserverSpec.BehavesAsNative | packages/runtime/test/observation/set-observer.spec.ts:119-145 | for any distinct initial set, kind of round (add, delete, clear), items or none, and number of rounds, the observed and the unobserved set end equal in content and order, and equal the native result. The same scenario covers lines 180-206 and 239-251 |
| SetObserverSpec.TrackedRound | packages/runtime/test/observation/set-observer.spec.ts:153-165 | after one round, `synchronize` of the copy, and the reset, the copy equals the live set, which is again the snapshot |
| SetObserverSpec.TracksChanges | packages/runtime/test/observation/set-observer.spec.ts:147-167 | for any distinct initial set, kind of round, items and number of rounds, the synchronized copy equals the observed set after every round, and that set equals the native result. The same scenario covers lines 208-228 and 253-265 |
| SetObserverSpec.SubscribeImmediate | packages/runtime/test/observation/set-observer.spec.ts:50-57 | a subscriber receives `('add', [1])` after `add(1)` |
| SetObserverSpec.UnsubscribeImmediate | packages/runtime/test/observation/set-observer.spec.ts:61-69 | after unsubscribing, the subscriber receives nothing |
| SetObserverSpec.SubscribeBatched | packages/runtime/test/observation/set-observer.spec.ts:73-83 | on flush, a batched subscriber receives exactly the index map copied before the flush: one `-2` slot, nothing deleted |
| SetObserverSpec.UnsubscribeBatched | packages/runtime/test/observation/set-observer.spec.ts:87-96 | after unsubscribing, a batched subscriber receives nothing on flush |
| SetObserverSpec.FlushWithoutChanges | packages/runtime/test/observation/set-observer.spec.ts:101-109 | a flush with no change still hands every batched subscriber the (empty) index map |

## Left out

- The source of the set observer itself (`set-observer.ts`) is not part of this model. Its behaviour is reconstructed from what `synchronize` needs and what the tests expect:
  - `add` of a new entry appends a `-2` slot;
  - `delete` finds the entry's position by walking the set, records the slot's prior index when it is `> -1`, and splices the slot out;
  - `clear` of a non-empty set records every prior index among the slots and empties them;
  - immediate subscribers are told only when the set actually changed;
  - subscribing twice does not duplicate a subscriber.
- The patching of `Set.prototype` (`enableSetObservation` / `disableSetObservation`, lines 39-42) is not modelled. The observer's methods are called directly.
- `dispose` (lines 43-47) is not modelled.
- The lifecycle and its flush queue (`new Lifecycle()`, `LifecycleFlags`) are not modelled. `flush` is called directly.
- `lifecycle.spec.ts`, `generated.ts` and `pythagoras.ts` are not part of this model.
- The subscription visitors are not modelled: `BindVisitor.bind` (call.ts:50, ref.ts:31), `UnbindVisitor.unbind` (ref.ts:47) and the `UnbindVisitor.bind` call in `Call.$unbind` (call.ts:62). They attach and detach observation subscriptions for the expression's nodes, and `bind-visitor.ts` is not part of this model.
- `Call.$unbind` calls `UnbindVisitor.bind`, where `Ref.$unbind` calls `UnbindVisitor.unbind`. If `UnbindVisitor` has no static `bind` of its own, this resolves to `Function.prototype.bind`, and unbinding a Call then detaches no subscription. This is an observation from reading the source, not executed; it is not modelled, since subscriptions are not.
- `callSource` has no `try`/`finally` (call.ts:28-33). If evaluating the expression throws, the argument keys stay in the override context. The model's evaluator is a total function, so this case does not arise in the model.
- A `Scope` holds its binding context and override context as values. Two scopes that share one context object are not modelled. For example, when a Ref is rebound from one scope to another that shares its binding context, the source leaves the slot holding the target. In the model, the first scope's copy is set to `null` and the second scope's copy receives the target separately.
- The binding flags, the service locator and the observer locator (call.ts:23) are not modelled. The Call's constructor receives the target accessor the locator would return.
- CallBinding.Call.CallSource: the source expression is a pure function of the binding context and the override context. Side effects of evaluation, and any return type other than a `Value`, are not modelled.
- CallBinding.Call.CallSource: the call binding is meant to make its arguments visible only for the duration of the call, leaving the scope as it was. The code (call.ts:31-33) deletes every argument key afterwards, which also drops a value the override context held under the same key before the call. The model follows the code. The override context is proved to be restored only when the argument keys were absent before.
- RefBinding.Ref.Evaluate: the source expression is modelled as an assignable access to one named property of the scope's binding context. Other assignable expressions (member access, keyed access, override-context lookup through parents) are not modelled.
- JavaScript `Set` compares with SameValueZero. The model uses Dafny equality on `Value`, which agrees except that `NaN` and floating-point numbers are not modelled.
- `incrementItems` handles only integers, since the test's items are all integers. Floating-point addition is not modelled.
- `add` returns the set itself, and the tests compare these results with `assetSetEqual` (lines 138-141). Results are modelled only for `delete` (the found flag), and `clear` returns nothing.
- `assetSetEqual` and `padRight` (lines 16-34, 272-275) are test formatting helpers. Set equality is modelled as sequence equality, which is order-sensitive like the helper.
- IndexMapReplay.Synchronize requires the stale copy and the live set to be distinct objects, as they are in every test.
