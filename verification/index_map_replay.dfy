/** Index maps and their replay: bringing a stale copy of an insertion-ordered set up to date
    from the index map an observer kept while the live set changed. */
module IndexMapReplay {
  import opened OrderedSets

  /** The slot value of an entry inserted since the last reset: it has no prior index. */
  const NewlyInserted: int := -2

  /** One slot per entry of the current collection (its prior index, or `NewlyInserted`),
      plus the prior indices of the entries deleted since the last reset. */
  datatype IndexMap = IndexMap(slots: seq<int>, deletedItems: seq<int>)

  /** The index map of a collection of size n right after a reset. */
  function Identity(n: nat): (m: IndexMap)
    ensures |m.slots| == n && m.deletedItems == []
    ensures forall i :: 0 <= i < n ==> m.slots[i] == i
  {
    IndexMap(seq(n, i => i), [])
  }

  /** The entry at position d, or nothing when d is not a position of s. */
  function EntryAt<T>(s: seq<T>, d: int): seq<T>
  {
    if 0 <= d < |s| then [s[d]] else []
  }

  /** The entries of oldSet at the given positions, in the order the positions are listed;
      a position outside the set names no entry. */
  function Targets<T>(oldSet: seq<T>, deleted: seq<int>): seq<T>
  {
    if deleted == [] then []
    else Targets(oldSet, deleted[..|deleted| - 1]) + EntryAt(oldSet, deleted[|deleted| - 1])
  }

  /** Deleting the listed entries one after another. */
  function RemoveAll<T(==)>(s: seq<T>, xs: seq<T>): seq<T>
  {
    if xs == [] then s
    else Remove(RemoveAll(s, xs[..|xs| - 1]), xs[|xs| - 1])
  }

  /** Reference definition: the entries of s that are not listed in xs, in the order of s. */
  function FilterOut<T(==)>(s: seq<T>, xs: seq<T>): seq<T>
  {
    if s == [] then []
    else (if s[0] in xs then [] else [s[0]]) + FilterOut(s[1..], xs)
  }

  /** Adding the listed entries one after another, with `Set.add` semantics. */
  function AddAll<T(==)>(s: seq<T>, xs: seq<T>): seq<T>
  {
    if xs == [] then s
    else NativeAdd(AddAll(s, xs[..|xs| - 1]), xs[|xs| - 1])
  }

  /** The entries of s whose slot marks them as newly inserted (isNew) or as carried over
      from the previous snapshot (!isNew), in the order of s. An entry beyond the slots has
      no slot, so it is not newly inserted. */
  function WithSlot<T>(slots: seq<int>, s: seq<T>, isNew: bool): seq<T>
  {
    if s == [] then []
    else
      var n := |s| - 1;
      WithSlot(slots, s[..n], isNew) + (if (n < |slots| && slots[n] == NewlyInserted) == isNew then [s[n]] else [])
  }

  /** What is left of oldSet once the entries at the deleted positions are collected and
      then deleted. */
  function Survivors<T(==)>(oldSet: seq<T>, deletedItems: seq<int>): seq<T>
  {
    RemoveAll(oldSet, Targets(oldSet, deletedItems))
  }

  /** The replay: nothing happens when both sets are empty; otherwise the old entries at
      the deleted positions are removed, then the new-set entries whose slot is
      `NewlyInserted` are added in new-set order. */
  function Synchronized<T(==)>(oldSet: seq<T>, m: IndexMap, newSet: seq<T>): (r: seq<T>)
    ensures |oldSet| == 0 && |newSet| == 0 ==> r == []
    ensures forall i :: 0 <= i < |r| ==> r[i] in oldSet || r[i] in newSet
  {
    if |newSet| == 0 && |oldSet| == 0 then oldSet
    else
      var ins := WithSlot(m.slots, newSet, true);
      ReplayFrom(oldSet, m.deletedItems, ins);
      WithSlotFrom(m.slots, newSet, true);
      AddAll(Survivors(oldSet, m.deletedItems), ins)
  }

  // ---------------------------------------------------------------------------------
  // Lemmas about the pieces of the replay

  lemma {:induction false} RemoveAllMembers<T>(s: seq<T>, xs: seq<T>, y: T)
    ensures y in RemoveAll(s, xs) <==> y in s && y !in xs
  {
    if xs != [] {
      RemoveAllMembers(s, xs[..|xs| - 1], y);
      RemoveIsSetDelete(RemoveAll(s, xs[..|xs| - 1]), xs[|xs| - 1]);
      assert xs == xs[..|xs| - 1] + [xs[|xs| - 1]];
    }
  }

  lemma {:induction false} RemoveAllDistinct<T>(s: seq<T>, xs: seq<T>)
    requires Distinct(s)
    ensures Distinct(RemoveAll(s, xs))
  {
    if xs != [] {
      RemoveAllDistinct(s, xs[..|xs| - 1]);
      RemoveIsSetDelete(RemoveAll(s, xs[..|xs| - 1]), xs[|xs| - 1]);
    }
  }

  lemma {:induction false} AddAllDistinct<T>(s: seq<T>, xs: seq<T>)
    requires Distinct(s)
    ensures Distinct(AddAll(s, xs))
  {
    if xs != [] {
      AddAllDistinct(s, xs[..|xs| - 1]);
      NativeAddIsSetAdd(AddAll(s, xs[..|xs| - 1]), xs[|xs| - 1]);
    }
  }

  /** After adding the listed entries, the members are the old ones and the listed ones. */
  lemma {:induction false} AddAllMembers<T>(s: seq<T>, xs: seq<T>, y: T)
    ensures y in AddAll(s, xs) <==> y in s || y in xs
  {
    if xs != [] {
      var init, x := xs[..|xs| - 1], xs[|xs| - 1];
      AddAllMembers(s, init, y);
      var a := AddAll(s, init);
      assert xs == init + [x];
      NativeAddMembers(a, x, y);
    }
  }

  /** The members left by removing then adding are those of s not removed, plus the added
      ones. */
  lemma ReplayMembers<T>(s: seq<T>, removed: seq<T>, added: seq<T>)
    ensures forall y :: y in AddAll(RemoveAll(s, removed), added) <==> (y in s && y !in removed) || y in added
  {
    forall y ensures y in AddAll(RemoveAll(s, removed), added) <==> (y in s && y !in removed) || y in added {
      AddAllMembers(RemoveAll(s, removed), added, y);
      RemoveAllMembers(s, removed, y);
    }
  }

  lemma ReplayFrom<T>(oldSet: seq<T>, deletedItems: seq<int>, added: seq<T>)
    ensures forall i :: 0 <= i < |AddAll(Survivors(oldSet, deletedItems), added)| ==>
      AddAll(Survivors(oldSet, deletedItems), added)[i] in oldSet ||
      AddAll(Survivors(oldSet, deletedItems), added)[i] in added
  {
    var sv := Survivors(oldSet, deletedItems);
    var r := AddAll(sv, added);
    forall i | 0 <= i < |r| ensures r[i] in oldSet || r[i] in added {
      AddAllMembers(sv, added, r[i]);
      RemoveAllMembers(oldSet, Targets(oldSet, deletedItems), r[i]);
    }
  }

  /** An entry is in the replay exactly when it survives the removal of the deleted
      positions' entries or is an entry of the new set whose slot is `NewlyInserted`. */
  lemma SynchronizedMembers<T>(oldSet: seq<T>, m: IndexMap, newSet: seq<T>, y: T)
    ensures y in Synchronized(oldSet, m, newSet) <==>
      (y in oldSet && y !in Targets(oldSet, m.deletedItems)) || y in WithSlot(m.slots, newSet, true)
  {
    if |newSet| != 0 || |oldSet| != 0 {
      ReplayMembers(oldSet, Targets(oldSet, m.deletedItems), WithSlot(m.slots, newSet, true));
    }
  }

  /** The replay of a set is again a set: its entries stay distinct. */
  lemma SynchronizedIsASet<T>(oldSet: seq<T>, m: IndexMap, newSet: seq<T>)
    requires Distinct(oldSet)
    ensures Distinct(Synchronized(oldSet, m, newSet))
  {
    if |newSet| != 0 || |oldSet| != 0 {
      RemoveAllDistinct(oldSet, Targets(oldSet, m.deletedItems));
      AddAllDistinct(Survivors(oldSet, m.deletedItems), WithSlot(m.slots, newSet, true));
    }
  }

  lemma {:induction false} FilterOutRemove<T>(s: seq<T>, xs: seq<T>, y: T)
    ensures Remove(FilterOut(s, xs), y) == FilterOut(s, xs + [y])
  {
    if s != [] {
      FilterOutRemove(s[1..], xs, y);
      var f := FilterOut(s, xs);
      if s[0] in xs {
        assert f == FilterOut(s[1..], xs);
      } else {
        assert f == [s[0]] + FilterOut(s[1..], xs);
        assert f[0] == s[0] && f[1..] == FilterOut(s[1..], xs);
      }
    }
  }

  /** Deleting one listed entry after another keeps exactly the unlisted entries, in their
      original order. */
  lemma {:induction false} RemoveAllIsFilterOut<T>(s: seq<T>, xs: seq<T>)
    ensures RemoveAll(s, xs) == FilterOut(s, xs)
  {
    if xs == [] {
      FilterOutNone(s);
    } else {
      var init := xs[..|xs| - 1];
      RemoveAllIsFilterOut(s, init);
      FilterOutRemove(s, init, xs[|xs| - 1]);
      assert init + [xs[|xs| - 1]] == xs;
    }
  }

  lemma {:induction false} FilterOutNone<T>(s: seq<T>)
    ensures FilterOut(s, []) == s
  {
    if s != [] {
      FilterOutNone(s[1..]);
    }
  }

  lemma {:induction false} TargetsMembers<T>(oldSet: seq<T>, deleted: seq<int>, j: int)
    requires Distinct(oldSet) && 0 <= j < |oldSet|
    ensures oldSet[j] in Targets(oldSet, deleted) <==> j in deleted
  {
    if deleted != [] {
      var init := deleted[..|deleted| - 1];
      TargetsMembers(oldSet, init, j);
      assert deleted == init + [deleted[|deleted| - 1]];
    }
  }

  /** Removal keeps exactly the old entries whose position is not among the deleted
      positions (positions of the ordering before any removal), in their old order. */
  lemma SurvivorsAreUndeleted<T>(oldSet: seq<T>, deletedItems: seq<int>)
    requires Distinct(oldSet)
    ensures Survivors(oldSet, deletedItems) == FilterOut(oldSet, Targets(oldSet, deletedItems))
    ensures forall j :: 0 <= j < |oldSet| ==>
      (oldSet[j] in Survivors(oldSet, deletedItems) <==> j !in deletedItems)
    ensures forall y :: y in Survivors(oldSet, deletedItems) ==> y in oldSet
  {
    var t := Targets(oldSet, deletedItems);
    RemoveAllIsFilterOut(oldSet, t);
    forall j | 0 <= j < |oldSet|
      ensures oldSet[j] in Survivors(oldSet, deletedItems) <==> j !in deletedItems
    {
      RemoveAllMembers(oldSet, t, oldSet[j]);
      TargetsMembers(oldSet, deletedItems, j);
    }
    forall y | y in Survivors(oldSet, deletedItems) ensures y in oldSet {
      RemoveAllMembers(oldSet, t, y);
    }
  }

  /** Adding entries that are all absent and pairwise distinct appends them in order. */
  lemma {:induction false} AddAllAppends<T>(s: seq<T>, xs: seq<T>)
    requires Distinct(s + xs)
    ensures AddAll(s, xs) == s + xs
  {
    if xs != [] {
      var init := xs[..|xs| - 1];
      var x := xs[|xs| - 1];
      assert s + xs == (s + init) + [x];
      assert Distinct(s + init) by {
        forall i, j | 0 <= i < j < |s + init| ensures (s + init)[i] != (s + init)[j] {
          assert (s + init)[i] == (s + xs)[i] && (s + init)[j] == (s + xs)[j];
        }
      }
      AddAllAppends(s, init);
      assert x !in s + init by {
        forall i | 0 <= i < |s + init| ensures (s + init)[i] != x {
          assert (s + xs)[i] == (s + init)[i] && (s + xs)[|s + xs| - 1] == x;
        }
      }
    }
  }

  lemma {:induction false} WithSlotMembers<T>(slots: seq<int>, s: seq<T>, isNew: bool, y: T)
    requires y in WithSlot(slots, s, isNew)
    ensures exists i :: 0 <= i < |s| && s[i] == y && (i < |slots| && slots[i] == NewlyInserted) == isNew
  {
    var n := |s| - 1;
    if y in WithSlot(slots, s[..n], isNew) {
      WithSlotMembers(slots, s[..n], isNew, y);
      var i :| 0 <= i < |s[..n]| && s[..n][i] == y && (i < |slots| && slots[i] == NewlyInserted) == isNew;
      assert s[i] == y;
    } else {
      assert s[n] == y;
    }
  }

  lemma WithSlotFrom<T>(slots: seq<int>, s: seq<T>, isNew: bool)
    ensures forall y :: y in WithSlot(slots, s, isNew) ==> y in s
  {
    forall y | y in WithSlot(slots, s, isNew) ensures y in s {
      WithSlotMembers(slots, s, isNew, y);
    }
  }

  lemma {:induction false} WithSlotDistinct<T>(slots: seq<int>, s: seq<T>, isNew: bool)
    requires Distinct(s)
    ensures Distinct(WithSlot(slots, s, isNew))
  {
    if s != [] {
      var n := |s| - 1;
      WithSlotDistinct(slots, s[..n], isNew);
      if s[n] in WithSlot(slots, s[..n], isNew) {
        WithSlotMembers(slots, s[..n], isNew, s[n]);
      }
    }
  }

  lemma DistinctConcat<T>(a: seq<T>, b: seq<T>)
    requires Distinct(a) && Distinct(b)
    requires forall y :: y in b ==> y !in a
    ensures Distinct(a + b)
  {
    forall i, j | 0 <= i < j < |a + b| ensures (a + b)[i] != (a + b)[j] {
      if i < |a| && |a| <= j {
        assert (a + b)[i] == a[i] && (a + b)[j] == b[j - |a|];
        assert b[j - |a|] in b;
      } else if |a| <= i {
        assert (a + b)[i] == b[i - |a|] && (a + b)[j] == b[j - |a|];
      }
    }
  }

  /** Unless both sets are empty, the replay is the survivors of removal followed by the
      newly inserted entries of the new set in new-set order, provided none of those
      already survives (otherwise `Set.add` keeps the survivor where it is). */
  lemma SynchronizedAppendsInserted<T>(oldSet: seq<T>, m: IndexMap, newSet: seq<T>)
    requires Distinct(oldSet) && Distinct(newSet)
    requires |oldSet| + |newSet| > 0
    requires forall y :: y in WithSlot(m.slots, newSet, true) ==> y !in Survivors(oldSet, m.deletedItems)
    ensures Synchronized(oldSet, m, newSet) == Survivors(oldSet, m.deletedItems) + WithSlot(m.slots, newSet, true)
  {
    var sv := Survivors(oldSet, m.deletedItems);
    var ins := WithSlot(m.slots, newSet, true);
    RemoveAllDistinct(oldSet, Targets(oldSet, m.deletedItems));
    WithSlotDistinct(m.slots, newSet, true);
    DistinctConcat(sv, ins);
    AddAllAppends(sv, ins);
  }

  // ---------------------------------------------------------------------------------
  // The replay as the test helper runs it: in place on the stale copy

  /** The first phase: for every deleted position, walks the copy from its start and
      collects the entry found at that position. Nothing is deleted yet, so every position
      refers to the ordering before any removal. */
  method CollectTargets<T>(oldSet: OrderedSet<T>, deletedItems: seq<int>) returns (toDelete: seq<T>)
    ensures toDelete == Targets(oldSet.elements, deletedItems)
  {
    toDelete := [];
    var k := 0;
    while k < |deletedItems|
      invariant 0 <= k <= |deletedItems|
      invariant toDelete == Targets(oldSet.elements, deletedItems[..k])
    {
      var deleted := deletedItems[k];
      var i := 0;
      while i < |oldSet.elements|
        invariant 0 <= i <= |oldSet.elements|
        invariant toDelete == Targets(oldSet.elements, deletedItems[..k]) + (if 0 <= deleted < i then [oldSet.elements[deleted]] else [])
      {
        var entry := oldSet.elements[i];
        if i == deleted {
          toDelete := toDelete + [entry];
        }
        i := i + 1;
      }
      assert deletedItems[..k + 1][..k] == deletedItems[..k];
      k := k + 1;
    }
    assert deletedItems[..k] == deletedItems;
  }

  /** The second phase: deletes the collected entries one after another. */
  method DeleteAll<T>(oldSet: OrderedSet<T>, toDelete: seq<T>)
    requires oldSet.Valid()
    modifies oldSet
    ensures oldSet.Valid() && oldSet.elements == RemoveAll(old(oldSet.elements), toDelete)
  {
    var j := 0;
    while j < |toDelete|
      invariant 0 <= j <= |toDelete|
      invariant oldSet.Valid()
      invariant oldSet.elements == RemoveAll(old(oldSet.elements), toDelete[..j])
    {
      var _ := oldSet.Delete(toDelete[j]);
      assert toDelete[..j + 1][..j] == toDelete[..j];
      j := j + 1;
    }
    assert toDelete[..j] == toDelete;
  }

  /** The third phase: walks the new set with a counter and adds every entry whose slot is
      `NewlyInserted`. */
  method AddInserted<T>(oldSet: OrderedSet<T>, slots: seq<int>, newSet: OrderedSet<T>)
    requires oldSet.Valid() && oldSet != newSet
    modifies oldSet
    ensures oldSet.Valid()
    ensures oldSet.elements == AddAll(old(oldSet.elements), WithSlot(slots, newSet.elements, true))
  {
    var n := 0;
    while n < |newSet.elements|
      invariant 0 <= n <= |newSet.elements|
      invariant oldSet.Valid()
      invariant oldSet.elements == AddAll(old(oldSet.elements), WithSlot(slots, newSet.elements[..n], true))
    {
      var entry := newSet.elements[n];
      ghost var before := WithSlot(slots, newSet.elements[..n], true);
      assert newSet.elements[..n + 1][..n] == newSet.elements[..n];
      if n < |slots| && slots[n] == NewlyInserted {
        oldSet.Add(entry);
        assert WithSlot(slots, newSet.elements[..n + 1], true) == before + [entry];
      } else {
        assert WithSlot(slots, newSet.elements[..n + 1], true) == before;
      }
      n := n + 1;
    }
    assert newSet.elements[..n] == newSet.elements;
  }

  /** The replay in place on the stale copy: nothing when both sets are empty, otherwise
      collect, delete, then add. */
  method Synchronize<T>(oldSet: OrderedSet<T>, indexMap: IndexMap, newSet: OrderedSet<T>)
    requires oldSet.Valid() && oldSet != newSet
    modifies oldSet
    ensures oldSet.Valid()
    ensures oldSet.elements == Synchronized(old(oldSet.elements), indexMap, newSet.elements)
  {
    var newSize := newSet.Size();
    var oldSize := oldSet.Size();
    if newSize == 0 && oldSize == 0 {
      return;
    }
    var toDelete := CollectTargets(oldSet, indexMap.deletedItems);
    DeleteAll(oldSet, toDelete);
    AddInserted(oldSet, indexMap.slots, newSet);
  }
}
