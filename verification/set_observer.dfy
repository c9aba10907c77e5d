/** The set observer: it intercepts `add`, `delete` and `clear` on one set, keeps the
    set's index map, notifies immediate subscribers on every change and hands the index
    map to batched subscribers on every flush. */
module SetObservation {
  import opened OrderedSets
  import opened IndexMapReplay
  import opened IndexMapTracking

  /** A subscriber, identified by a number; the model records what each one receives. */
  type Subscriber = nat

  datatype Operation = AddOp | DeleteOp | ClearOp

  /** A call of a subscriber's `handleChange(operation, args)` or of its
      `handleBatchedChange(indexMap)`. */
  datatype Notification<T> =
    | Change(subscriber: Subscriber, operation: Operation, args: seq<T>)
    | BatchedChange(subscriber: Subscriber, indexMap: IndexMap)

  /** One immediate notification per subscriber, in subscription order. */
  function Changes<T>(subscribers: seq<Subscriber>, op: Operation, args: seq<T>): (r: seq<Notification<T>>)
    ensures |r| == |subscribers|
    ensures forall k :: 0 <= k < |r| ==> r[k].Change? && r[k].subscriber == subscribers[k]
  {
    seq(|subscribers|, k requires 0 <= k < |subscribers| => Change(subscribers[k], op, args))
  }

  /** One batched notification per batched subscriber, in subscription order, each with
      the same index map. */
  function BatchedChanges<T>(subscribers: seq<Subscriber>, m: IndexMap): (r: seq<Notification<T>>)
    ensures |r| == |subscribers|
    ensures forall k :: 0 <= k < |r| ==> r[k].BatchedChange? && r[k].subscriber == subscribers[k]
  {
    seq(|subscribers|, k requires 0 <= k < |subscribers| => BatchedChange(subscribers[k], m))
  }

  /** A subscriber that is not subscribed receives none of the notifications. */
  lemma NotSubscribedNotNotified<T>(subscribers: seq<Subscriber>, s: Subscriber, notes: seq<Notification<T>>)
    requires s !in subscribers
    requires |notes| == |subscribers|
    requires forall k :: 0 <= k < |notes| ==> notes[k].subscriber == subscribers[k]
    ensures forall n :: n in notes ==> n.subscriber != s
  {
    forall n | n in notes ensures n.subscriber != s {
      var k :| 0 <= k < |notes| && notes[k] == n;
      assert subscribers[k] in subscribers;
    }
  }

  /** Subscribing is idempotent: a subscriber already in the list is not added again. */
  function Subscribed(subscribers: seq<Subscriber>, s: Subscriber): (r: seq<Subscriber>)
    ensures s in r && |r| <= |subscribers| + 1
    ensures forall t :: t in subscribers ==> t in r
  {
    if s in subscribers then subscribers else subscribers + [s]
  }

  /** The loop of the patched `clear` that walks the slots and keeps every index that
      refers to an entry of the snapshot, in slot order. */
  method PriorIndices(slots: seq<int>) returns (kept: seq<int>)
    ensures kept == KeptSlots(slots)
  {
    kept := [];
    var i := 0;
    while i < |slots|
      invariant 0 <= i <= |slots|
      invariant kept == KeptSlots(slots[..i])
    {
      assert slots[..i + 1][..i] == slots[..i];
      if slots[i] > -1 {
        kept := kept + [slots[i]];
      }
      i := i + 1;
    }
    assert slots[..i] == slots;
  }

  class SetObserver<T(==)> {
    /** The observed set; its `add`, `delete` and `clear` go through this observer. */
    const collection: OrderedSet<T>
    var indexMap: IndexMap
    /** The set as it was at the last reset of the index map. */
    ghost var snapshot: seq<T>
    var subscribers: seq<Subscriber>
    var batchedSubscribers: seq<Subscriber>
    /** Every notification delivered so far, in delivery order. */
    var notifications: seq<Notification<T>>

    ghost predicate Valid()
      reads this, collection
    {
      collection.Valid() && Tracks(snapshot, collection.elements, indexMap)
    }

    constructor (observed: OrderedSet<T>)
      requires observed.Valid()
      ensures Valid() && collection == observed && observed.elements == old(observed.elements)
      ensures indexMap == Identity(|observed.elements|) && snapshot == observed.elements
      ensures subscribers == [] && batchedSubscribers == [] && notifications == []
    {
      collection := observed;
      indexMap := Identity(|observed.elements|);
      snapshot := observed.elements;
      subscribers, batchedSubscribers, notifications := [], [], [];
      TracksAfterReset(observed.elements);
    }

    /** The patched `add`: when the set grows, the new last slot is `NewlyInserted` and the
        immediate subscribers are told `('add', [x])`. */
    method Add(x: T)
      requires Valid()
      modifies this, collection
      ensures Valid()
      ensures collection.elements == NativeAdd(old(collection.elements), x)
      ensures snapshot == old(snapshot)
      ensures subscribers == old(subscribers) && batchedSubscribers == old(batchedSubscribers)
      ensures x in old(collection.elements) ==>
        indexMap == old(indexMap) && notifications == old(notifications)
      ensures x !in old(collection.elements) ==>
        && indexMap == IndexMap(old(indexMap.slots) + [NewlyInserted], old(indexMap.deletedItems))
        && notifications == old(notifications) + Changes(subscribers, AddOp, [x])
    {
      ghost var before := collection.elements;
      var oldSize := collection.Size();
      collection.Add(x);
      var newSize := collection.Size();
      if newSize == oldSize {
        return;
      }
      TracksAfterAdd(snapshot, before, indexMap, x);
      indexMap := indexMap.(slots := indexMap.slots + [NewlyInserted]);
      notifications := notifications + Changes(subscribers, AddOp, [x]);
    }

    /** The patched `delete`: the entry is looked up by walking the set with a counter; its
        slot is spliced out and, when it had a prior index, that index is recorded as
        deleted; the immediate subscribers are told `('delete', [x])`. */
    method Delete(x: T) returns (found: bool)
      requires Valid()
      modifies this, collection
      ensures Valid()
      ensures (found, collection.elements) == NativeDelete(old(collection.elements), x)
      ensures snapshot == old(snapshot)
      ensures subscribers == old(subscribers) && batchedSubscribers == old(batchedSubscribers)
      ensures !found ==> indexMap == old(indexMap) && notifications == old(notifications)
      ensures found ==>
        && indexMap == AfterDelete(old(indexMap), IndexOf(old(collection.elements), x))
        && notifications == old(notifications) + Changes(subscribers, DeleteOp, [x])
    {
      var size := collection.Size();
      if size == 0 {
        return false;
      }
      var i := 0;
      while i < size && collection.elements[i] != x
        invariant 0 <= i <= size
        invariant x !in collection.elements[..i]
      {
        i := i + 1;
      }
      if i == size {
        assert collection.elements[..i] == collection.elements;
        return false;
      }
      ghost var before := collection.elements;
      assert i == IndexOf(before, x);
      TracksAfterDelete(snapshot, before, indexMap, i);
      RemoveAt(before, i);
      indexMap := AfterDelete(indexMap, i);
      found := collection.Delete(x);
      notifications := notifications + Changes(subscribers, DeleteOp, [x]);
    }

    /** The patched `clear`: on a non-empty set, the prior index of every carried-over entry
        is recorded as deleted, the slots are emptied and the immediate subscribers are told
        `('clear', [])`. */
    method Clear()
      requires Valid()
      modifies this, collection
      ensures Valid()
      ensures collection.elements == []
      ensures snapshot == old(snapshot)
      ensures subscribers == old(subscribers) && batchedSubscribers == old(batchedSubscribers)
      ensures |old(collection.elements)| == 0 ==>
        indexMap == old(indexMap) && notifications == old(notifications)
      ensures |old(collection.elements)| > 0 ==>
        && indexMap == IndexMap([], old(indexMap.deletedItems) + KeptSlots(old(indexMap.slots)))
        && notifications == old(notifications) + Changes(subscribers, ClearOp, [])
    {
      var size := collection.Size();
      if size > 0 {
        var kept := PriorIndices(indexMap.slots);
        TracksAfterClear(snapshot, collection.elements, indexMap);
        collection.Clear();
        indexMap := IndexMap([], indexMap.deletedItems + kept);
        notifications := notifications + Changes(subscribers, ClearOp, []);
      }
    }

    /** The consumer has synchronized: the index map restarts as the identity over the
        current set with nothing deleted. */
    method ResetIndexMap()
      requires collection.Valid()
      modifies this
      ensures Valid()
      ensures indexMap == Identity(|collection.elements|) && snapshot == collection.elements
      ensures subscribers == old(subscribers) && batchedSubscribers == old(batchedSubscribers)
      ensures notifications == old(notifications)
    {
      var live := collection.elements;
      TracksAfterReset(live);
      indexMap, snapshot := Identity(|live|), live;
    }

    method Subscribe(s: Subscriber)
      requires Valid()
      modifies this
      ensures Valid() && subscribers == Subscribed(old(subscribers), s)
      ensures indexMap == old(indexMap) && snapshot == old(snapshot)
      ensures batchedSubscribers == old(batchedSubscribers) && notifications == old(notifications)
    {
      subscribers := Subscribed(subscribers, s);
    }

    method Unsubscribe(s: Subscriber)
      requires Valid()
      modifies this
      ensures Valid() && subscribers == Remove(old(subscribers), s) && s !in subscribers
      ensures indexMap == old(indexMap) && snapshot == old(snapshot)
      ensures batchedSubscribers == old(batchedSubscribers) && notifications == old(notifications)
    {
      RemoveIsSetDelete(subscribers, s);
      subscribers := Remove(subscribers, s);
    }

    method SubscribeBatched(s: Subscriber)
      requires Valid()
      modifies this
      ensures Valid() && batchedSubscribers == Subscribed(old(batchedSubscribers), s)
      ensures indexMap == old(indexMap) && snapshot == old(snapshot)
      ensures subscribers == old(subscribers) && notifications == old(notifications)
    {
      batchedSubscribers := Subscribed(batchedSubscribers, s);
    }

    method UnsubscribeBatched(s: Subscriber)
      requires Valid()
      modifies this
      ensures Valid() && batchedSubscribers == Remove(old(batchedSubscribers), s) && s !in batchedSubscribers
      ensures indexMap == old(indexMap) && snapshot == old(snapshot)
      ensures subscribers == old(subscribers) && notifications == old(notifications)
    {
      RemoveIsSetDelete(batchedSubscribers, s);
      batchedSubscribers := Remove(batchedSubscribers, s);
    }

    /** Every batched subscriber is handed the current index map, whether or not anything
        changed; the index map is not reset. */
    method Flush()
      requires Valid()
      modifies this
      ensures Valid()
      ensures notifications == old(notifications) + BatchedChanges(batchedSubscribers, indexMap)
      ensures indexMap == old(indexMap) && snapshot == old(snapshot)
      ensures subscribers == old(subscribers) && batchedSubscribers == old(batchedSubscribers)
    {
      notifications := notifications + BatchedChanges(batchedSubscribers, indexMap);
    }
  }
}
