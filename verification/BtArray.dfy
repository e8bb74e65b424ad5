/** BtArray itself: a first-fit bag of elements in a growable slot array, null slots being free. */
module SlotArray {
  import opened Slots

  /** i is the first null slot of s, or |s| when there is none. */
  ghost predicate FirstNull(s: seq<Ptr>, i: nat) {
    i <= |s| && (forall j :: 0 <= j < i ==> s[j] != NULL) && (i < |s| ==> s[i] == NULL)
  }

  ghost function Nulls(n: nat): (s: seq<Ptr>)
    ensures |s| == n && AllNull(s)
  {
    seq(n, _ => NULL)
  }

  /** The slots after add(o): o in free slot i, or in the first slot past a full array. */
  ghost function Placed(s: seq<Ptr>, i: nat, o: Ptr): seq<Ptr> {
    if i < |s| then s[i := o] else s + [o] + Nulls(|s| + 1)
  }

  /** An addition keeps every element in the slot it is in, and adds exactly o to the contents,
      whether or not the array has to grow. */
  lemma {:induction false} PlacedAddsOne(s: seq<Ptr>, i: nat, o: Ptr)
    requires FirstNull(s, i) && o != NULL
    ensures |s| <= |Placed(s, i, o)|
    ensures forall j :: 0 <= j < |s| && s[j] != NULL ==> Placed(s, i, o)[j] == s[j]
    ensures multiset(Compact(Placed(s, i, o))) == multiset(Compact(s)) + multiset{o}
  {
    hide Compact;
    if i < |s| {
      var a, b := s[..i], s[i + 1..];
      assert s == a + [NULL] + b && s[i := o] == a + [o] + b;
      CompactMiddle(a, NULL, b);
      CompactMiddle(a, o, b);
    } else {
      CompactMiddle(s, o, Nulls(|s| + 1));
      CompactAllNull(Nulls(|s| + 1));
    }
  }

  /** s holds the elements c, one after the other, and nothing else. */
  ghost predicate Packed(s: seq<Ptr>, c: seq<Ptr>) {
    |c| <= |s| && s[..|c|] == c && AllNull(s[|c|..])
  }

  /** Elements added to an empty array line up at its start. */
  lemma {:induction false} AppendsAfter(s: seq<Ptr>, c: seq<Ptr>, i: nat, o: Ptr)
    requires Packed(s, c) && NULL !in c && |c| < |s| && FirstNull(s, i)
    ensures i == |c| && Packed(Placed(s, i, o), c + [o])
  {
    assert s[|c|] == s[|c|..][0] == NULL;
    assert forall j :: 0 <= j < |c| ==> s[j] == c[j];
    var r := Placed(s, i, o);
    assert r[|c| + 1..] == s[|c|..][1..];
  }

  /** Clearing the slot of an element takes exactly that element out. */
  lemma {:induction false} ClearedLosesOne(s: seq<Ptr>, i: nat)
    requires i < |s| && s[i] != NULL
    ensures multiset(Compact(s)) == multiset(Compact(s[i := NULL])) + multiset{s[i]}
  {
    assert s == s[..i] + [s[i]] + s[i + 1..] && s[i := NULL] == s[..i] + [NULL] + s[i + 1..];
    CompactMiddle(s[..i], NULL, s[i + 1..]);
    CompactMiddle(s[..i], s[i], s[i + 1..]);
  }

  lemma {:induction false} CompactHolds(s: seq<Ptr>, o: Ptr)
    requires o != NULL
    ensures o in Compact(s) <==> o in s
  {
    if s != [] {
      CompactHolds(s[1..], o);
      assert o in s <==> s[0] == o || o in s[1..];
    }
  }

  class BtArray {
    var elements: array?<Ptr>
    var capacity: nat

    ghost predicate Valid()
      reads this
    {
      if elements == null then capacity == 0 else elements.Length == capacity
    }

    ghost function Raw(): seq<Ptr>
      reads this, elements
    {
      if elements == null then [] else elements[..]
    }

    constructor (size: nat)
      ensures Valid() && Raw() == Nulls(size)
      ensures elements == null || fresh(elements)
    {
      elements, capacity := null, 0;
      new;
      if size > 0 {
        NewCapacity(size);
      }
    }

    method EmptyYourself()
      requires Valid()
      modifies elements
      ensures Raw() == Nulls(capacity)
    {
      if elements != null {
        for p := 0 to capacity
          invariant elements[..p] == Nulls(p)
        {
          elements[p] := NULL;
        }
      }
    }

    method NewCapacity(size: nat)
      modifies this
      ensures Valid() && Raw() == Nulls(size) && capacity == size
      ensures elements != null && fresh(elements)
    {
      elements, capacity := new Ptr[size], size;
      EmptyYourself();
    }

    /** Scans for a free slot; when there is none, grows the array and goes on where the scan ended. */
    method Add(o: Ptr) returns (r: Ptr, ghost at: nat)
      requires Valid()
      modifies this, elements
      ensures Valid() && r == o
      ensures FirstNull(old(Raw()), at) && Raw() == Placed(old(Raw()), at, o)
      ensures elements == old(elements) || fresh(elements)
      ensures NULL in old(Raw()) ==> elements == old(elements) && capacity == old(capacity)
      decreases if NULL in Raw() then 0 else 3, 0
    {
      ghost var was := Raw();
      var i := Scan(0);
      at := i;
      if i == capacity {
        assert NULL !in was;
        Expand();
        assert Raw()[i] == NULL;
        i := Scan(i);
      }
      elements[i] := o;
      r := o;
      assert Raw() == Placed(was, at, o);
    }

    /** The inner loop of add: the first free slot, all slots before `from` being known as taken. */
    method Scan(from: nat) returns (i: nat)
      requires Valid() && from <= capacity
      requires forall j :: 0 <= j < from ==> Raw()[j] != NULL
      ensures FirstNull(Raw(), i)
    {
      i := from;
      while i < capacity && elements[i] != NULL
        invariant from <= i <= capacity
        invariant forall j :: 0 <= j < i ==> Raw()[j] != NULL
      {
        i := i + 1;
      }
    }

    method CopyElements(s: nat, from: array?<Ptr>)
      requires Valid()
      requires from != null ==> from.Length == s
      modifies this, elements
      ensures Valid()
      ensures elements == old(elements) || fresh(elements)
      ensures capacity == if from == null || s <= old(capacity) then old(capacity) else s
      ensures var c := if from == null || from == old(elements) then [] else Compact(old(from[..]));
        Packed(Raw(), c)
      decreases 2, 0
    {
      EmptyYourself();
      if from == null {
        return;
      }
      if s > capacity {
        NewCapacity(s);
      }
      if from == elements {
        CompactAllNull(from[..]);
      }
      Refill(from);
    }

    /** The loop of copyElements. */
    method Refill(from: array<Ptr>)
      requires Valid() && from.Length <= capacity && Raw() == Nulls(capacity)
      modifies this, elements
      ensures Valid() && elements == old(elements) && capacity == old(capacity)
      ensures Packed(Raw(), Compact(old(from[..])))
      decreases 1, 1
    {
      ghost var f := from[..];
      assert f[..0] == [] && Packed(Raw(), Compact(f[..0]));
      hide Compact;
      for i := 0 to from.Length
        invariant Valid() && elements == old(elements) && capacity == old(capacity)
        invariant from[..] == f && (from == elements ==> AllNull(f))
        invariant |Compact(f[..i])| <= i && Packed(Raw(), Compact(f[..i]))
      {
        CompactSnoc(f, i);
        CompactFixpoint(f[..i]);
        if from[i] != NULL {
          AddAfter(Compact(f[..i]), from[i]);
        }
      }
      assert f[..from.Length] == f;
    }

    /** One round of copying: the element goes right behind those already there. */
    method AddAfter(ghost c: seq<Ptr>, o: Ptr)
      requires Valid() && NULL !in c && |c| < capacity && o != NULL && Packed(Raw(), c)
      modifies this, elements
      ensures Valid() && elements == old(elements) && capacity == old(capacity)
      ensures Raw() == c + [o] + Nulls(capacity - |c| - 1)
      decreases 1, 0
    {
      assert Raw()[|c|] == Raw()[|c|..][0];
      var _, at := Add(o);
      AppendsAfter(old(Raw()), c, at, o);
    }

    /** Growth of a full array: every element keeps its index. */
    method Expand()
      requires Valid() && NULL !in Raw()
      modifies this, elements
      ensures Valid() && capacity == 2 * (old(capacity) + 1)
      ensures elements != null && fresh(elements)
      ensures Raw() == old(Raw()) + Nulls(old(capacity) + 2)
      decreases 2, 1
    {
      CompactFixpoint(Raw());
      var s, slots := capacity, elements;
      elements := null;
      NewCapacity((s + 1) * 2);
      CopyElements(s, slots);
      assert Raw()[s..] == Nulls(s + 2);
    }

    method FindAt(o: Ptr) returns (found: Ptr, s: nat)
      requires Valid()
      ensures if o in Raw() then found == o && s < capacity && Raw()[s] == o && o !in Raw()[..s]
        else found == NULL
    {
      s := 0;
      for i := 0 to capacity
        invariant forall j :: 0 <= j < i ==> Raw()[j] != o
      {
        if elements[i] == o {
          return o, i;
        }
      }
      found := NULL;
    }

    method Remove(o: Ptr) returns (was: Ptr)
      requires Valid()
      modifies elements
      ensures Valid()
      ensures if o != NULL && o in old(Raw())
        then was == o && multiset(Compact(Raw())) == old(multiset(Compact(Raw()))) - multiset{o}
        else was == NULL && Raw() == old(Raw())
    {
      var n;
      was, n := FindAt(o);
      if was != NULL {
        ClearedLosesOne(Raw(), n);
        ghost var r := Raw();
        elements[n] := NULL;
        assert Raw() == r[n := NULL];
      }
    }

    /** Used instead of add, keeps the contents free of duplicates. */
    method AddIfAbsent(o: Ptr) returns (r: Ptr)
      requires Valid()
      modifies this, elements
      ensures Valid() && r == o
      ensures elements == old(elements) || fresh(elements)
      ensures o != NULL && o in old(Raw()) ==> Raw() == old(Raw())
      ensures o != NULL && o !in old(Raw()) ==>
        multiset(Compact(Raw())) == old(multiset(Compact(Raw()))) + multiset{o}
        && multiset(Compact(Raw()))[o] == 1
    {
      ghost var was := Raw();
      var found, _ := FindAt(o);
      if found == NULL {
        ghost var at;
        r, at := Add(o);
        if o != NULL {
          PlacedAddsOne(was, at, o);
          CompactHolds(was, o);
        }
      } else {
        r := found;
      }
    }
  }
}
