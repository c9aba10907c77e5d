/** The native JavaScript `Set`: a collection of distinct elements that iterates in
    insertion order. Its contents are a sequence without repetitions. */
module OrderedSets {

  ghost predicate Distinct<T>(s: seq<T>)
  {
    forall i, j :: 0 <= i < j < |s| ==> s[i] != s[j]
  }

  /** `set.add(x)`: appends x unless it is already present. */
  function NativeAdd<T(==)>(s: seq<T>, x: T): (r: seq<T>)
    ensures x in s ==> r == s
    ensures x !in s ==> |r| == |s| + 1 && r[|s|] == x
    ensures |s| <= |r| && r[..|s|] == s
  {
    if x in s then s else s + [x]
  }

  /** Adding keeps the entries distinct and the members are the old ones plus x. */
  lemma NativeAddIsSetAdd<T>(s: seq<T>, x: T)
    requires Distinct(s)
    ensures Distinct(NativeAdd(s, x))
    ensures forall y :: y in NativeAdd(s, x) <==> y in s || y == x
  {
    if x !in s {
      var r := s + [x];
      forall i, j | 0 <= i < j < |r| ensures r[i] != r[j] {
        if j == |s| {
          assert r[i] == s[i];
        }
      }
    }
  }

  /** After adding x, the members are the old ones and x. */
  lemma NativeAddMembers<T>(s: seq<T>, x: T, y: T)
    ensures y in NativeAdd(s, x) <==> y in s || y == x
  {
    if x !in s {
      assert NativeAdd(s, x) == s + [x];
    }
  }

  /** The sequence without any occurrence of x. */
  function Remove<T(==)>(s: seq<T>, x: T): (r: seq<T>)
    ensures x !in s ==> r == s
  {
    if s == [] then []
    else if s[0] == x then Remove(s[1..], x)
    else [s[0]] + Remove(s[1..], x)
  }

  /** Removing x drops exactly x from the members and, on distinct entries, exactly one
      entry when x was present. */
  lemma {:induction false} RemoveIsSetDelete<T>(s: seq<T>, x: T)
    ensures forall y :: y in Remove(s, x) <==> y in s && y != x
    ensures Distinct(s) ==> Distinct(Remove(s, x))
    ensures Distinct(s) && x in s ==> |Remove(s, x)| == |s| - 1
  {
    if s != [] {
      RemoveIsSetDelete(s[1..], x);
      if s[0] != x {
        var rest := Remove(s[1..], x);
        assert Remove(s, x) == [s[0]] + rest;
        if Distinct(s) {
          assert s[0] !in s[1..];
          DistinctCons(s[0], rest);
        }
      } else if Distinct(s) {
        assert x !in s[1..];
      }
    }
  }

  lemma DistinctCons<T>(x: T, s: seq<T>)
    requires Distinct(s) && x !in s
    ensures Distinct([x] + s)
  {
    var r := [x] + s;
    forall i, j | 0 <= i < j < |r| ensures r[i] != r[j] {
      if i == 0 {
        assert r[j] == s[j - 1];
      } else {
        assert r[i] == s[i - 1] && r[j] == s[j - 1];
      }
    }
  }

  /** `set.delete(x)`: whether x was present, and the set without it; the others keep their
      order. */
  function NativeDelete<T(==)>(s: seq<T>, x: T): (r: (bool, seq<T>))
    ensures r.0 <==> x in s
    ensures !r.0 ==> r.1 == s
  {
    (x in s, Remove(s, x))
  }

  lemma {:induction false} RemoveAt<T>(s: seq<T>, i: nat)
    requires Distinct(s) && i < |s|
    ensures Remove(s, s[i]) == s[..i] + s[i + 1..]
  {
    if i == 0 {
      assert s[0] !in s[1..];
      assert s[1..] == s[..0] + s[1..];
    } else {
      assert s[1..][i - 1] == s[i];
      RemoveAt(s[1..], i - 1);
      assert s[1..][..i - 1] + s[1..][i..] == s[1..i] + s[i + 1..];
      assert s[..i] == [s[0]] + s[1..i];
    }
  }

  /** A native `Set` instance. */
  class OrderedSet<T(==)> {
    var elements: seq<T>

    ghost predicate Valid()
      reads this
    {
      Distinct(elements)
    }

    constructor (init: seq<T>)
      requires Distinct(init)
      ensures Valid() && elements == init
    {
      elements := init;
    }

    method Size() returns (n: nat)
      ensures n == |elements|
    {
      n := |elements|;
    }

    method Add(x: T)
      requires Valid()
      modifies this
      ensures Valid() && elements == NativeAdd(old(elements), x)
    {
      NativeAddIsSetAdd(elements, x);
      if x !in elements {
        elements := elements + [x];
      }
    }

    method Delete(x: T) returns (found: bool)
      requires Valid()
      modifies this
      ensures Valid() && (found, elements) == NativeDelete(old(elements), x)
    {
      found := x in elements;
      RemoveIsSetDelete(elements, x);
      elements := Remove(elements, x);
    }

    method Clear()
      modifies this
      ensures Valid() && elements == []
    {
      elements := [];
    }
  }
}
