/** How a set observer keeps its index map between resets, and why replaying that index
    map onto a copy of the set taken at the last reset reproduces the live set. */
module IndexMapTracking {
  import opened OrderedSets
  import opened IndexMapReplay

  /** The index map after deleting the entry at position i: its slot is spliced out, and
      its prior index, when it has one (`> -1`), is recorded as deleted. */
  function AfterDelete(m: IndexMap, i: nat): (r: IndexMap)
    requires i < |m.slots|
    ensures |r.slots| == |m.slots| - 1
    ensures forall j :: 0 <= j < |r.slots| ==> r.slots[j] == m.slots[if j < i then j else j + 1]
    ensures m.slots[i] > -1 ==> r.deletedItems == m.deletedItems + [m.slots[i]]
    ensures m.slots[i] <= -1 ==> r.deletedItems == m.deletedItems
  {
    IndexMap(m.slots[..i] + m.slots[i + 1..],
             if m.slots[i] > -1 then m.deletedItems + [m.slots[i]] else m.deletedItems)
  }

  /** The prior indices among the slots (those `> -1`), in slot order. */
  function KeptSlots(slots: seq<int>): (r: seq<int>)
    ensures forall k :: 0 <= k < |r| ==> r[k] > -1
    ensures |r| <= |slots|
  {
    if slots == [] then []
    else KeptSlots(slots[..|slots| - 1]) + (if slots[|slots| - 1] > -1 then [slots[|slots| - 1]] else [])
  }

  /** The position of x in s. */
  function IndexOf<T(==)>(s: seq<T>, x: T): (i: nat)
    requires x in s
    ensures i < |s| && s[i] == x && x !in s[..i]
  {
    if s[0] == x then 0 else IndexOf(s[1..], x) + 1
  }

  /** The invariant between a snapshot of the set (taken at the last reset), the live set
      and the index map: each slot is `NewlyInserted` or the snapshot position of the same
      entry; carried-over entries all come before newly inserted ones; and removing the
      snapshot entries at the deleted positions leaves exactly the carried-over entries. */
  ghost predicate Tracks<T>(snapshot: seq<T>, live: seq<T>, m: IndexMap)
  {
    && Distinct(snapshot) && Distinct(live)
    && |m.slots| == |live|
    && (forall i :: 0 <= i < |live| ==>
          m.slots[i] == NewlyInserted || (0 <= m.slots[i] < |snapshot| && snapshot[m.slots[i]] == live[i]))
    && live == WithSlot(m.slots, live, false) + WithSlot(m.slots, live, true)
    && Survivors(snapshot, m.deletedItems) == WithSlot(m.slots, live, false)
  }

  // ---------------------------------------------------------------------------------
  // Helpers on sequences

  lemma {:induction false} WithSlotConcat<T>(sa: seq<int>, a: seq<T>, sb: seq<int>, b: seq<T>, isNew: bool)
    requires |sa| == |a| && |sb| == |b|
    ensures WithSlot(sa + sb, a + b, isNew) == WithSlot(sa, a, isNew) + WithSlot(sb, b, isNew)
  {
    if b == [] {
      assert a + b == a && sa + sb == sa;
    } else {
      var n := |b| - 1;
      var ab, sab := a + b, sa + sb;
      var tail := if (sb[n] == NewlyInserted) == isNew then [b[n]] else [];
      WithSlotConcat(sa, a, sb[..n], b[..n], isNew);
      assert ab[..|ab| - 1] == a + b[..n] && ab[|ab| - 1] == b[n] && sab[|ab| - 1] == sb[n];
      assert WithSlot(sab, ab, isNew) == WithSlot(sab, a + b[..n], isNew) + tail;
      assert sab == (sa + sb[..n]) + [sb[n]];
      WithSlotExtend(sa + sb[..n], [sb[n]], a + b[..n], isNew);
      assert WithSlot(sb, b, isNew) == WithSlot(sb, b[..n], isNew) + tail;
      assert sb == sb[..n] + [sb[n]];
      WithSlotExtend(sb[..n], [sb[n]], b[..n], isNew);
    }
  }

  /** Slots beyond the end of s are never consulted. */
  lemma {:induction false} WithSlotExtend<T>(slots: seq<int>, extra: seq<int>, s: seq<T>, isNew: bool)
    requires |s| <= |slots|
    ensures WithSlot(slots + extra, s, isNew) == WithSlot(slots, s, isNew)
  {
    if s != [] {
      WithSlotExtend(slots, extra, s[..|s| - 1], isNew);
    }
  }

  lemma {:induction false} WithSlotOfOne<T>(slot: int, x: T, isNew: bool)
    ensures WithSlot([slot], [x], isNew) == if (slot == NewlyInserted) == isNew then [x] else []
  {
    assert [x][..0] == [];
  }

  lemma {:induction false} WithSlotSubset<T>(slots: seq<int>, s: seq<T>, isNew: bool, y: T)
    requires y in WithSlot(slots, s, isNew)
    ensures y in s
  {
    WithSlotMembers(slots, s, isNew, y);
  }

  lemma {:induction false} RemoveConcat<T>(a: seq<T>, b: seq<T>, x: T)
    ensures Remove(a + b, x) == Remove(a, x) + Remove(b, x)
  {
    if a == [] {
      assert a + b == b;
    } else {
      var ab := a + b;
      assert ab[0] == a[0] && ab[1..] == a[1..] + b;
      RemoveConcat(a[1..], b, x);
    }
  }

  lemma {:induction false} RemoveAllConcat<T>(s: seq<T>, xs: seq<T>, ys: seq<T>)
    ensures RemoveAll(s, xs + ys) == RemoveAll(RemoveAll(s, xs), ys)
  {
    if ys == [] {
      assert xs + ys == xs;
    } else {
      var n := |ys| - 1;
      var zs := xs + ys;
      RemoveAllConcat(s, xs, ys[..n]);
      assert zs[..|zs| - 1] == xs + ys[..n] && zs[|zs| - 1] == ys[n];
      assert RemoveAll(s, zs) == Remove(RemoveAll(s, xs + ys[..n]), ys[n]);
    }
  }

  lemma RemoveAllSelf<T>(s: seq<T>)
    ensures RemoveAll(s, s) == []
  {
    var r := RemoveAll(s, s);
    if r != [] {
      RemoveAllMembers(s, s, r[0]);
      assert false;
    }
  }

  lemma {:induction false} TargetsConcat<T>(snapshot: seq<T>, xs: seq<int>, ys: seq<int>)
    ensures Targets(snapshot, xs + ys) == Targets(snapshot, xs) + Targets(snapshot, ys)
  {
    if ys == [] {
      assert xs + ys == xs;
    } else {
      var n := |ys| - 1;
      var zs := xs + ys;
      TargetsConcat(snapshot, xs, ys[..n]);
      assert zs[..|zs| - 1] == xs + ys[..n];
      var tx, ty, e := Targets(snapshot, xs), Targets(snapshot, ys[..n]), EntryAt(snapshot, ys[n]);
      assert (tx + ty) + e == tx + (ty + e);
    }
  }

  /** The snapshot entries at the kept slots' prior indices are the carried-over entries. */
  lemma {:induction false} TargetsOfKeptSlots<T>(snapshot: seq<T>, live: seq<T>, slots: seq<int>)
    requires |slots| == |live|
    requires forall i :: 0 <= i < |live| ==>
      slots[i] == NewlyInserted || (0 <= slots[i] < |snapshot| && snapshot[slots[i]] == live[i])
    ensures Targets(snapshot, KeptSlots(slots)) == WithSlot(slots, live, false)
  {
    if live != [] {
      var n := |live| - 1;
      var ps, pl := slots[..n], live[..n];
      assert ps + [slots[n]] == slots && pl + [live[n]] == live;
      assert forall i :: 0 <= i < |pl| ==> ps[i] == slots[i] && pl[i] == live[i];
      TargetsOfKeptSlots(snapshot, pl, ps);
      KeptSlotsStep(snapshot, ps, pl, slots[n], live[n]);
    }
  }

  /** One more slot adds its snapshot entry to both sides, or nothing to either. */
  lemma KeptSlotsStep<T>(snapshot: seq<T>, slots: seq<int>, live: seq<T>, slot: int, x: T)
    requires |slots| == |live|
    requires slot == NewlyInserted || (0 <= slot < |snapshot| && snapshot[slot] == x)
    requires Targets(snapshot, KeptSlots(slots)) == WithSlot(slots, live, false)
    ensures Targets(snapshot, KeptSlots(slots + [slot])) == WithSlot(slots + [slot], live + [x], false)
  {
    var ks := KeptSlots(slots);
    var w := WithSlot(slots, live, false);
    var slots', live' := slots + [slot], live + [x];
    assert slots'[..|slots|] == slots && live'[..|live|] == live;
    WithSlotExtend(slots, [slot], live, false);
    var last := if slot > -1 then [slot] else [];
    var entry := if slot > -1 then [x] else [];
    assert KeptSlots(slots') == ks + last;
    assert WithSlot(slots', live', false) == w + entry;
    assert Targets(snapshot, ks + last) == Targets(snapshot, ks) + entry by {
      if slot > -1 {
        assert (ks + last)[..|ks|] == ks;
      } else {
        assert ks + last == ks;
        assert Targets(snapshot, ks) + entry == Targets(snapshot, ks);
      }
    }
  }

  lemma DistinctNotInPrefix<T>(a: seq<T>, b: seq<T>, y: T)
    requires Distinct(a + b) && y in b
    ensures y !in a
  {
    var j :| 0 <= j < |b| && b[j] == y;
    forall i | 0 <= i < |a| ensures a[i] != y {
      assert (a + b)[i] == a[i] && (a + b)[|a| + j] == y;
    }
  }

  lemma DistinctNotInOthers<T>(s: seq<T>, i: nat)
    requires Distinct(s) && i < |s|
    ensures s[i] !in s[..i] && s[i] !in s[i + 1..]
  {
  }

  // ---------------------------------------------------------------------------------
  // The invariant is established by a reset and kept by every mutation

  /** `resetIndexMap`: right after a reset the snapshot is the live set and the index map
      is the identity with nothing deleted. */
  lemma {:induction false} TracksAfterReset<T>(live: seq<T>)
    requires Distinct(live)
    ensures Tracks(live, live, Identity(|live|))
  {
    var m := Identity(|live|);
    NothingNew(live, m.slots);
    assert Survivors(live, m.deletedItems) == live;
    assert live == live + [];
  }

  lemma {:induction false} NothingNew<T>(s: seq<T>, slots: seq<int>)
    requires |slots| == |s|
    requires forall i :: 0 <= i < |slots| ==> slots[i] != NewlyInserted
    ensures WithSlot(slots, s, false) == s && WithSlot(slots, s, true) == []
  {
    if s != [] {
      var n := |s| - 1;
      NothingNew(s[..n], slots[..n]);
      WithSlotExtend(slots[..n], [slots[n]], s[..n], false);
      WithSlotExtend(slots[..n], [slots[n]], s[..n], true);
      assert slots[..n] + [slots[n]] == slots;
      assert s[..n] + [s[n]] == s;
    }
  }

  /** Adding an absent entry appends it and a `NewlyInserted` slot. */
  lemma {:induction false} TracksAfterAdd<T>(snapshot: seq<T>, live: seq<T>, m: IndexMap, x: T)
    requires Tracks(snapshot, live, m) && x !in live
    ensures Tracks(snapshot, live + [x], IndexMap(m.slots + [NewlyInserted], m.deletedItems))
  {
    var live' := live + [x];
    var slots' := m.slots + [NewlyInserted];
    var kept := WithSlot(m.slots, live, false);
    var ins := WithSlot(m.slots, live, true);
    assert live'[..|live|] == live && live'[|live|] == x;
    WithSlotExtend(m.slots, [NewlyInserted], live, false);
    WithSlotExtend(m.slots, [NewlyInserted], live, true);
    assert WithSlot(slots', live', false) == kept + [];
    assert WithSlot(slots', live', true) == ins + [x];
    assert Distinct(live') by {
      NativeAddIsSetAdd(live, x);
    }
  }

  /** Deleting the entry at position i splices out its slot and records its prior index. */
  lemma {:induction false} TracksAfterDelete<T>(snapshot: seq<T>, live: seq<T>, m: IndexMap, i: nat)
    requires Tracks(snapshot, live, m) && i < |live|
    ensures Tracks(snapshot, live[..i] + live[i + 1..], AfterDelete(m, i))
  {
    var x := live[i];
    var live' := live[..i] + live[i + 1..];
    var m' := AfterDelete(m, i);
    var kept := WithSlot(m.slots, live, false);
    var ins := WithSlot(m.slots, live, true);
    SplicedWithSlot(m.slots, live, i, false);
    SplicedWithSlot(m.slots, live, i, true);
    PartsAfterDelete(live, kept, ins, i);
    SurvivorsAfterDelete(snapshot, live, m, i);
    SlotsAfterDelete(snapshot, live, m, i);
  }

  lemma PartsAfterDelete<T>(live: seq<T>, kept: seq<T>, ins: seq<T>, i: nat)
    requires Distinct(live) && i < |live| && live == kept + ins
    ensures live[..i] + live[i + 1..] == Remove(kept, live[i]) + Remove(ins, live[i])
    ensures Distinct(live[..i] + live[i + 1..])
  {
    RemoveAt(live, i);
    RemoveConcat(kept, ins, live[i]);
  }

  lemma SlotsAfterDelete<T>(snapshot: seq<T>, live: seq<T>, m: IndexMap, i: nat)
    requires Tracks(snapshot, live, m) && i < |live|
    ensures var live', m' := live[..i] + live[i + 1..], AfterDelete(m, i);
      && |m'.slots| == |live'|
      && forall j :: 0 <= j < |live'| ==>
           m'.slots[j] == NewlyInserted || (0 <= m'.slots[j] < |snapshot| && snapshot[m'.slots[j]] == live'[j])
  {
    var live', m' := live[..i] + live[i + 1..], AfterDelete(m, i);
    forall j | 0 <= j < |live'|
      ensures m'.slots[j] == NewlyInserted || (0 <= m'.slots[j] < |snapshot| && snapshot[m'.slots[j]] == live'[j])
    {
      var k := if j < i then j else j + 1;
      assert live'[j] == live[k] && m'.slots[j] == m.slots[k];
    }
  }

  lemma SurvivorsAfterDelete<T>(snapshot: seq<T>, live: seq<T>, m: IndexMap, i: nat)
    requires Tracks(snapshot, live, m) && i < |live|
    ensures Survivors(snapshot, AfterDelete(m, i).deletedItems) == Remove(WithSlot(m.slots, live, false), live[i])
  {
    var x := live[i];
    var kept := WithSlot(m.slots, live, false);
    var ins := WithSlot(m.slots, live, true);
    if m.slots[i] > -1 {
      var d := m.slots[i];
      var dels := m.deletedItems + [d];
      assert dels[..|m.deletedItems|] == m.deletedItems;
      var t := Targets(snapshot, m.deletedItems);
      assert Targets(snapshot, dels) == t + [x];
      assert (t + [x])[..|t|] == t;
    } else {
      InsertedAt(m.slots, live, i);
      DistinctNotInPrefix(kept, ins, x);
    }
  }

  /** An entry whose slot is `NewlyInserted` is among the newly inserted entries. */
  lemma {:induction false} InsertedAt<T>(slots: seq<int>, live: seq<T>, i: nat)
    requires |slots| == |live| && i < |live| && slots[i] == NewlyInserted
    ensures live[i] in WithSlot(slots, live, true)
  {
    var n := |live| - 1;
    if i < n {
      InsertedAt(slots[..n], live[..n], i);
      WithSlotExtend(slots[..n], [slots[n]], live[..n], true);
      assert slots[..n] + [slots[n]] == slots;
    }
  }

  /** Splicing position i out of both the slots and the set removes that entry from
      whichever part it belonged to. */
  lemma SplicedWithSlot<T>(slots: seq<int>, live: seq<T>, i: nat, isNew: bool)
    requires Distinct(live) && |slots| == |live| && i < |live|
    ensures WithSlot(slots[..i] + slots[i + 1..], live[..i] + live[i + 1..], isNew)
         == Remove(WithSlot(slots, live, isNew), live[i])
  {
    var x := live[i];
    var a := WithSlot(slots[..i], live[..i], isNew);
    var mid := WithSlot([slots[i]], [x], isNew);
    var b := WithSlot(slots[i + 1..], live[i + 1..], isNew);
    WithSlotConcat(slots[..i], live[..i], slots[i + 1..], live[i + 1..], isNew);
    SplitAt(slots, live, i, isNew);
    DistinctNotInOthers(live, i);
    assert x !in a by {
      if x in a {
        WithSlotSubset(slots[..i], live[..i], isNew, x);
      }
    }
    assert x !in b by {
      if x in b {
        WithSlotSubset(slots[i + 1..], live[i + 1..], isNew, x);
      }
    }
    WithSlotOfOne(slots[i], x, isNew);
    RemoveMiddle(a, mid, b, x);
  }

  lemma RemoveMiddle<T>(a: seq<T>, mid: seq<T>, b: seq<T>, x: T)
    requires x !in a && x !in b && (mid == [x] || mid == [])
    ensures Remove(a + (mid + b), x) == a + b
  {
    RemoveConcat(mid, b, x);
    var rm := Remove(mid, x);
    assert rm == [] by {
      if mid == [x] {
        assert Remove([x], x) == Remove([x][1..], x);
      }
    }
    assert Remove(mid + b, x) == b by {
      assert rm + Remove(b, x) == [] + b;
      assert [] + b == b;
    }
    RemoveConcat(a, mid + b, x);
  }

  lemma SplitAt<T>(slots: seq<int>, live: seq<T>, i: nat, isNew: bool)
    requires |slots| == |live| && i < |live|
    ensures WithSlot(slots, live, isNew)
         == WithSlot(slots[..i], live[..i], isNew) + (WithSlot([slots[i]], [live[i]], isNew) + WithSlot(slots[i + 1..], live[i + 1..], isNew))
  {
    WithSlotConcat(slots[..i], live[..i], [slots[i]] + slots[i + 1..], [live[i]] + live[i + 1..], isNew);
    WithSlotConcat([slots[i]], [live[i]], slots[i + 1..], live[i + 1..], isNew);
    assert slots[..i] + ([slots[i]] + slots[i + 1..]) == slots;
    assert live[..i] + ([live[i]] + live[i + 1..]) == live;
  }

  /** Clearing records the prior index of every carried-over entry and empties the slots. */
  lemma {:induction false} TracksAfterClear<T>(snapshot: seq<T>, live: seq<T>, m: IndexMap)
    requires Tracks(snapshot, live, m)
    ensures Tracks(snapshot, [], IndexMap([], m.deletedItems + KeptSlots(m.slots)))
  {
    var kept := WithSlot(m.slots, live, false);
    TargetsConcat(snapshot, m.deletedItems, KeptSlots(m.slots));
    TargetsOfKeptSlots(snapshot, live, m.slots);
    RemoveAllConcat(snapshot, Targets(snapshot, m.deletedItems), kept);
    RemoveAllSelf(kept);
    assert Survivors(snapshot, m.deletedItems + KeptSlots(m.slots)) == [];
    var none: seq<T> := [];
    assert WithSlot([], none, false) == [];
  }

  // ---------------------------------------------------------------------------------
  // The replay reproduces the live set

  /** Replaying the index map onto the snapshot yields the live set, entry for entry and in
      the same order. */
  lemma {:induction false} ReplayReproducesLive<T>(snapshot: seq<T>, live: seq<T>, m: IndexMap)
    requires Tracks(snapshot, live, m)
    ensures Synchronized(snapshot, m, live) == live
  {
    if |live| + |snapshot| > 0 {
      var kept := WithSlot(m.slots, live, false);
      var ins := WithSlot(m.slots, live, true);
      forall y | y in ins ensures y !in Survivors(snapshot, m.deletedItems) {
        DistinctNotInPrefix(kept, ins, y);
      }
      SynchronizedAppendsInserted(snapshot, m, live);
    }
  }
}
