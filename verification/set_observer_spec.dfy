/** The scenarios the set observer is held to: immediate and batched subscription, flushing
    without changes, and the `behaves as native` and `tracks changes` rounds in which a list of
    items is bumped with `incrementItems` and then added to, or deleted from, the observed set,
    or the set is cleared. */
module SetObserverSpec {
  import opened BindingContext
  import opened OrderedSets
  import opened IndexMapReplay
  import opened IndexMapTracking
  import opened SetObservation

  datatype Option<T> = None | Some(value: T)

  /** What a round does to the observed set. */
  datatype Kind = Adding | Deleting | Clearing

  // ---------------------------------------------------------------------------------
  // incrementItems

  /** `items[i] += amount` on a number; anything else is left alone. */
  function Incremented(v: Value, amount: int): Value
  {
    if v.Num? then Num(v.n + amount) else v
  }

  /** Every item bumped by the same amount. */
  function Bumped(items: seq<Value>, amount: int): (r: seq<Value>)
    ensures |r| == |items|
  {
    seq(|items|, k requires 0 <= k < |items| => Incremented(items[k], amount))
  }

  /** Two bumps are one bump by the sum. */
  lemma BumpedTwice(items: seq<Value>, a: int, b: int)
    ensures Bumped(Bumped(items, a), b) == Bumped(items, a + b)
  {
    var lhs, rhs := Bumped(Bumped(items, a), b), Bumped(items, a + b);
    forall k | 0 <= k < |items| ensures lhs[k] == rhs[k] {
      assert Bumped(items, a)[k] == Incremented(items[k], a);
    }
  }

  /** A bump by nothing leaves the items as they are. */
  lemma BumpedByNothing(items: Option<seq<Value>>)
    ensures BumpedItems(items, 0) == items
  {
    if items.Some? {
      assert Bumped(items.value, 0) == items.value;
    }
  }

  /** Bumps every number of a list of items in place; an undefined list is left alone. */
  method IncrementItems(items: array?<Value>, amount: int)
    modifies items
    ensures items != null ==> items[..] == Bumped(old(items[..]), amount)
  {
    if items == null {
      return;
    }
    var i := 0;
    var len := items.Length;
    while i < len
      invariant 0 <= i <= len
      invariant forall k :: 0 <= k < i ==> items[k] == Incremented(old(items[k]), amount)
      invariant forall k :: i <= k < len ==> items[k] == old(items[k])
    {
      if items[i].Num? {
        items[i] := Num(items[i].n + amount);
      }
      i := i + 1;
    }
  }

  /** 0 + 1 + ... + (n - 1): the total bump after rounds 0 to n - 1, since round i bumps by i. */
  function Sum(n: nat): nat
  {
    if n == 0 then 0 else Sum(n - 1) + (n - 1)
  }

  /** The items after bumps totalling `total`; undefined items stay undefined. */
  function BumpedItems(items: Option<seq<Value>>, total: int): Option<seq<Value>>
  {
    match items
    case None => None
    case Some(xs) => Some(Bumped(xs, total))
  }

  /** The items an array holds, or none for an undefined array. */
  function Items(a: array?<Value>): Option<seq<Value>>
    reads a
  {
    if a == null then None else Some(a[..])
  }

  // ---------------------------------------------------------------------------------
  // What the rounds do to a native set

  /** The arguments of a round's calls, one call per argument: with no items, `add()` and
      `delete()` are called once with `undefined`. */
  function Arguments(items: Option<seq<Value>>): seq<Value>
  {
    match items
    case None => [Undefined]
    case Some(xs) => xs
  }

  /** After adding each listed value, the members are the old ones and the listed ones. */
  lemma AddAllHas(s: seq<Value>, xs: seq<Value>)
    ensures forall y :: y in AddAll(s, xs) <==> y in s || y in xs
  {
    forall y ensures y in AddAll(s, xs) <==> y in s || y in xs {
      AddAllMembers(s, xs, y);
    }
  }

  /** After deleting each listed value, the members are the old ones not listed. */
  lemma RemoveAllHas(s: seq<Value>, xs: seq<Value>)
    ensures forall y :: y in RemoveAll(s, xs) <==> y in s && y !in xs
  {
    forall y ensures y in RemoveAll(s, xs) <==> y in s && y !in xs {
      RemoveAllMembers(s, xs, y);
    }
  }

  /** One round on a native set: adding puts every argument in, deleting takes every
      argument out, clearing empties the set. */
  function NativeRound(s: seq<Value>, kind: Kind, items: Option<seq<Value>>): (r: seq<Value>)
    ensures kind == Clearing ==> r == []
    ensures kind == Adding ==> forall y :: y in r <==> y in s || y in Arguments(items)
    ensures kind == Deleting ==> forall y :: y in r <==> y in s && y !in Arguments(items)
  {
    match kind
    case Adding =>
      (match items
       case None => AddAllHas(s, [Undefined]); NativeAdd(s, Undefined)
       case Some(xs) => AddAllHas(s, xs); AddAll(s, xs))
    case Deleting =>
      (match items
       case None => RemoveIsSetDelete(s, Undefined); NativeDelete(s, Undefined).1
       case Some(xs) => RemoveAllHas(s, xs); RemoveAll(s, xs))
    case Clearing => []
  }

  /** The native set after `repeat` rounds: rounds of adding only grow it, rounds of
      deleting only shrink it, and any round of clearing leaves it empty. */
  function NativeRounds(init: seq<Value>, kind: Kind, items: Option<seq<Value>>, repeat: nat): (r: seq<Value>)
    ensures repeat == 0 ==> r == init
    ensures kind == Clearing && repeat > 0 ==> r == []
    ensures kind == Adding ==> forall y :: y in init ==> y in r
    ensures kind == Deleting ==> forall y :: y in r ==> y in init
  {
    if repeat == 0 then init
    else NativeRound(NativeRounds(init, kind, items, repeat - 1), kind, BumpedItems(items, Sum(repeat)))
  }

  /** A native set stays a set through any number of rounds. */
  lemma {:induction false} NativeRoundsDistinct(init: seq<Value>, kind: Kind, items: Option<seq<Value>>, repeat: nat)
    requires Distinct(init)
    ensures Distinct(NativeRounds(init, kind, items, repeat))
  {
    if repeat > 0 {
      var s := NativeRounds(init, kind, items, repeat - 1);
      NativeRoundsDistinct(init, kind, items, repeat - 1);
      match kind
      case Adding => {
        match BumpedItems(items, Sum(repeat))
        case None => NativeAddIsSetAdd(s, Undefined);
        case Some(xs) => AddAllDistinct(s, xs);
      }
      case Deleting => {
        match BumpedItems(items, Sum(repeat))
        case None => RemoveIsSetDelete(s, Undefined);
        case Some(xs) => RemoveAllDistinct(s, xs);
      }
      case Clearing =>
    }
  }

  /** A fresh `newItems` array for a test: a copy of the items, or undefined. */
  method CopyItems(items: Option<seq<Value>>) returns (newItems: array?<Value>)
    ensures Items(newItems) == items
    ensures newItems != null ==> fresh(newItems)
  {
    match items
    case None => newItems := null;
    case Some(xs) =>
      newItems := new Value[|xs|](k requires 0 <= k < |xs| => xs[k]);
      assert newItems[..] == xs;
  }

  /** `incrementItems(newItems, i)` at the start of round i: the items, bumped by
      0 + 1 + ... + (i - 1) so far, are now bumped by 0 + 1 + ... + i. */
  method BumpItems(newItems: array?<Value>, ghost items: Option<seq<Value>>, i: nat)
    requires Items(newItems) == BumpedItems(items, Sum(i))
    modifies newItems
    ensures Items(newItems) == BumpedItems(items, Sum(i + 1))
  {
    IncrementItems(newItems, i);
    if newItems != null {
      BumpedTwice(items.value, Sum(i), i);
    }
  }

  // ---------------------------------------------------------------------------------
  // One round on a set, observed or not

  /** One round on the observed set, through the observer's patched methods. */
  method ObservedRound(observer: SetObserver<Value>, kind: Kind, items: array?<Value>)
    requires observer.Valid()
    modifies observer, observer.collection
    ensures observer.Valid() && observer.snapshot == old(observer.snapshot)
    ensures observer.collection.elements ==
      NativeRound(old(observer.collection.elements), kind, Items(items))
  {
    var target := observer.collection;
    if kind == Clearing {
      observer.Clear();
    } else if items == null {
      if kind == Adding {
        observer.Add(Undefined);
      } else {
        var _ := observer.Delete(Undefined);
      }
    } else {
      ghost var s := target.elements;
      var k := 0;
      while k < items.Length
        invariant 0 <= k <= items.Length
        invariant observer.Valid() && observer.snapshot == old(observer.snapshot)
        invariant target.elements == if kind == Adding then AddAll(s, items[..k]) else RemoveAll(s, items[..k])
      {
        assert items[..k + 1][..k] == items[..k];
        if kind == Adding {
          observer.Add(items[k]);
        } else {
          var _ := observer.Delete(items[k]);
        }
        k := k + 1;
      }
      assert items[..k] == items[..];
    }
  }

  /** The same round on an unobserved set. */
  method NativeRoundOn(target: OrderedSet<Value>, kind: Kind, items: array?<Value>)
    requires target.Valid()
    modifies target
    ensures target.Valid()
    ensures target.elements == NativeRound(old(target.elements), kind, Items(items))
  {
    if kind == Clearing {
      target.Clear();
    } else if items == null {
      if kind == Adding {
        target.Add(Undefined);
      } else {
        var _ := target.Delete(Undefined);
      }
    } else {
      ghost var s := target.elements;
      var k := 0;
      while k < items.Length
        invariant 0 <= k <= items.Length
        invariant target.Valid()
        invariant target.elements == if kind == Adding then AddAll(s, items[..k]) else RemoveAll(s, items[..k])
      {
        assert items[..k + 1][..k] == items[..k];
        if kind == Adding {
          target.Add(items[k]);
        } else {
          var _ := target.Delete(items[k]);
        }
        k := k + 1;
      }
      assert items[..k] == items[..];
    }
  }

  // ---------------------------------------------------------------------------------
  // The tests

  /** One round of `behaves as native`: `incrementItems(newItems, i)`, then the same round on
      the observed set and on the unobserved one. */
  method ComparedRound(sut: SetObserver<Value>, expectedSet: OrderedSet<Value>, kind: Kind,
                       newItems: array?<Value>, ghost items: Option<seq<Value>>, i: nat)
    requires sut.Valid() && expectedSet.Valid() && expectedSet != sut.collection
    requires Items(newItems) == BumpedItems(items, Sum(i))
    modifies sut, sut.collection, expectedSet, newItems
    ensures sut.Valid() && expectedSet.Valid()
    ensures Items(newItems) == BumpedItems(items, Sum(i + 1))
    ensures sut.collection.elements == NativeRound(old(sut.collection.elements), kind, Items(newItems))
    ensures expectedSet.elements == NativeRound(old(expectedSet.elements), kind, Items(newItems))
  {
    BumpItems(newItems, items, i);
    ObservedRound(sut, kind, newItems);
    NativeRoundOn(expectedSet, kind, newItems);
  }

  /** `behaves as native`: an observed set and an unobserved one put through the same rounds
      end up equal, in content and in order. */
  method BehavesAsNative(init: seq<Value>, kind: Kind, items: Option<seq<Value>>, repeat: nat)
    returns (actual: seq<Value>, expected: seq<Value>)
    requires Distinct(init)
    ensures actual == expected == NativeRounds(init, kind, items, repeat)
  {
    var target := new OrderedSet(init);
    var expectedSet := new OrderedSet(init);
    var newItems := CopyItems(items);
    var sut := new SetObserver(target);
    BumpedByNothing(items);
    var i := 0;
    while i < repeat
      invariant 0 <= i <= repeat
      invariant sut.Valid() && sut.collection == target && expectedSet.Valid()
      invariant fresh(target) && fresh(expectedSet) && fresh(sut)
      invariant newItems != null ==> fresh(newItems)
      invariant Items(newItems) == BumpedItems(items, Sum(i))
      invariant target.elements == expectedSet.elements == NativeRounds(init, kind, items, i)
    {
      ComparedRound(sut, expectedSet, kind, newItems, items, i);
      i := i + 1;
    }
    actual, expected := target.elements, expectedSet.elements;
  }

  /** One round of `tracks changes`: `incrementItems(newItems, i)`, the round on the observed
      set, `synchronize` of the copy, and the reset of the index map. */
  method TrackedRound(sut: SetObserver<Value>, copySet: OrderedSet<Value>, kind: Kind,
                      newItems: array?<Value>, ghost items: Option<seq<Value>>, i: nat)
    requires sut.Valid() && copySet.Valid() && copySet != sut.collection
    requires copySet.elements == sut.snapshot == sut.collection.elements
    requires Items(newItems) == BumpedItems(items, Sum(i))
    modifies sut, sut.collection, copySet, newItems
    ensures sut.Valid() && copySet.Valid()
    ensures Items(newItems) == BumpedItems(items, Sum(i + 1))
    ensures sut.collection.elements == NativeRound(old(sut.collection.elements), kind, Items(newItems))
    ensures copySet.elements == sut.snapshot == sut.collection.elements
  {
    BumpItems(newItems, items, i);
    ObservedRound(sut, kind, newItems);
    Synchronize(copySet, sut.indexMap, sut.collection);
    ReplayReproducesLive(sut.snapshot, sut.collection.elements, sut.indexMap);
    sut.ResetIndexMap();
  }

  /** `tracks changes`: after every round a copy of the set taken at the last reset, replayed
      through `synchronize` with the observer's index map, equals the observed set; the index
      map is then reset for the next round. */
  method TracksChanges(init: seq<Value>, kind: Kind, items: Option<seq<Value>>, repeat: nat)
    returns (copy: seq<Value>, live: seq<Value>)
    requires Distinct(init)
    ensures copy == live == NativeRounds(init, kind, items, repeat)
  {
    var target := new OrderedSet(init);
    var copySet := new OrderedSet(init);
    var newItems := CopyItems(items);
    var sut := new SetObserver(target);
    BumpedByNothing(items);
    var i := 0;
    while i < repeat
      invariant 0 <= i <= repeat
      invariant sut.Valid() && sut.collection == target && copySet.Valid()
      invariant fresh(target) && fresh(copySet) && fresh(sut)
      invariant newItems != null ==> fresh(newItems)
      invariant Items(newItems) == BumpedItems(items, Sum(i))
      invariant target.elements == NativeRounds(init, kind, items, i)
      invariant copySet.elements == sut.snapshot == target.elements
    {
      TrackedRound(sut, copySet, kind, newItems, items, i);
      i := i + 1;
    }
    copy, live := copySet.elements, target.elements;
  }

  /** An immediate subscriber is told about an add, with the added item. */
  method SubscribeImmediate() returns (received: seq<Notification<Value>>)
    ensures Change(0, AddOp, [Num(1)]) in received
  {
    var target := new OrderedSet([]);
    var sut := new SetObserver(target);
    sut.Subscribe(0);
    sut.Add(Num(1));
    received := sut.notifications;
    assert received[0] == Change(0, AddOp, [Num(1)]);
  }

  /** After unsubscribing, an immediate subscriber is told nothing. */
  method UnsubscribeImmediate() returns (received: seq<Notification<Value>>)
    ensures forall n :: n in received ==> n.subscriber != 0
  {
    var target := new OrderedSet([]);
    var sut := new SetObserver(target);
    sut.Subscribe(0);
    sut.Unsubscribe(0);
    sut.Add(Num(1));
    received := sut.notifications;
    NotSubscribedNotNotified(sut.subscribers, 0, received);
  }

  /** A batched subscriber is handed, on flush, the index map as it was after the add: one
      newly inserted slot and nothing deleted. */
  method SubscribeBatched() returns (indexMap: IndexMap, received: seq<Notification<Value>>)
    ensures indexMap == IndexMap([NewlyInserted], [])
    ensures received == [BatchedChange(0, indexMap)]
  {
    var target := new OrderedSet([]);
    var sut := new SetObserver(target);
    sut.SubscribeBatched(0);
    sut.Add(Num(1));
    indexMap := sut.indexMap;
    sut.Flush();
    received := sut.notifications;
  }

  /** After unsubscribing, a batched subscriber is handed nothing on flush. */
  method UnsubscribeBatched() returns (received: seq<Notification<Value>>)
    ensures received == []
  {
    var target := new OrderedSet([]);
    var sut := new SetObserver(target);
    sut.SubscribeBatched(0);
    sut.UnsubscribeBatched(0);
    sut.Add(Num(1));
    sut.Flush();
    received := sut.notifications;
  }

  /** A flush with no change still hands every batched subscriber the (empty) index map. */
  method FlushWithoutChanges() returns (received: seq<Notification<Value>>)
    ensures received == [BatchedChange(0, IndexMap([], []))]
  {
    var target := new OrderedSet([]);
    var sut := new SetObserver(target);
    sut.SubscribeBatched(0);
    sut.Flush();
    received := sut.notifications;
  }
}
