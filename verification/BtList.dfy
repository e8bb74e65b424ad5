/** BtList: a list over one slot array with a movable gap. */
module GapList {
  import opened Slots

  /** The elements before `free` stand at the left end of the array, the others at its right end, and
      the gap between them has |slots| - count slots. */
  ghost predicate Gapped(slots: seq<Ptr>, free: nat, count: nat) {
    && free <= count <= |slots|
    && forall k :: free <= k < free + |slots| - count ==> slots[k] == NULL
  }

  /** BtList.h:82-83 and BtList.cc:66-68. */
  function PositionOf(capacity: nat, free: nat, count: nat, i: nat): nat
    requires count <= capacity
  {
    if i < free then i else i + capacity - count
  }

  /** The logical sequence: element i is found at its position. */
  ghost function ViewOf(slots: seq<Ptr>, free: nat, count: nat): (v: seq<Ptr>)
    requires free <= count <= |slots|
    ensures |v| == count
  {
    seq(count, i requires 0 <= i < count => slots[PositionOf(|slots|, free, count, i)])
  }

  /** Rescanning the raw slots yields the logical sequence without its nulls. */
  lemma {:induction false} RescanSeesView(slots: seq<Ptr>, free: nat, count: nat)
    requires Gapped(slots, free, count)
    ensures Compact(slots) == Compact(ViewOf(slots, free, count))
  {
    var e := free + |slots| - count;
    var left, gap, right := slots[..free], slots[free..e], slots[e..];
    calc {
      Compact(slots);
      { assert slots == left + (gap + right); }
      Compact(left + (gap + right));
      { CompactConcat(left, gap + right); CompactConcat(gap, right); CompactAllNull(gap); }
      Compact(left) + Compact(right);
      { CompactConcat(left, right); }
      Compact(left + right);
      { assert ViewOf(slots, free, count) == left + right; }
      Compact(ViewOf(slots, free, count));
    }
  }

  /** The elements lo..hi moved right over `gap` slots, nulls left behind. */
  ghost function SlidRight(slots: seq<Ptr>, lo: nat, hi: nat, gap: nat): (r: seq<Ptr>)
    requires lo <= hi && hi + gap <= |slots|
    ensures |r| == |slots|
  {
    seq(|slots|, k requires 0 <= k < |slots| =>
      if lo <= k < lo + gap then NULL
      else if lo + gap <= k < hi + gap then slots[k - gap]
      else slots[k])
  }

  /** The slots lo..hi filled from `gap` slots further right, nulls left behind; without a gap each
      slot is copied onto itself and then cleared. */
  ghost function SlidLeft(slots: seq<Ptr>, lo: nat, hi: nat, gap: nat): (r: seq<Ptr>)
    requires lo <= hi && hi + gap <= |slots|
    ensures |r| == |slots|
  {
    seq(|slots|, k requires 0 <= k < |slots| =>
      if lo <= k < hi then (if gap == 0 then NULL else slots[k + gap])
      else if hi <= k < hi + gap then NULL
      else slots[k])
  }

  ghost predicate NullsAt(slots: seq<Ptr>, lo: nat, gap: nat) {
    lo + gap <= |slots| && forall k :: lo <= k < lo + gap ==> slots[k] == NULL
  }

  lemma {:induction false} NothingSlid(slots: seq<Ptr>, lo: nat, gap: nat)
    requires NullsAt(slots, lo, gap)
    ensures SlidLeft(slots, lo, lo, gap) == slots == SlidRight(slots, lo, lo, gap)
  {
  }

  lemma {:induction false} GapIsNull(slots: seq<Ptr>, free: nat, count: nat)
    requires Gapped(slots, free, count)
    ensures NullsAt(slots, free, |slots| - count)
  {
  }

  /** One more slot, filled and then the other one cleared. */
  lemma {:induction false} SlidRightStep(slots: seq<Ptr>, lo: nat, hi: nat, gap: nat)
    requires lo < hi && hi + gap <= |slots| && gap > 0
    ensures var r := SlidRight(slots, lo + 1, hi, gap);
      r[lo + gap := r[lo]][lo := NULL] == SlidRight(slots, lo, hi, gap)
  {
  }

  lemma {:induction false} SlidLeftStep(slots: seq<Ptr>, lo: nat, hi: nat, gap: nat)
    requires lo <= hi && hi + gap < |slots|
    ensures var r := SlidLeft(slots, lo, hi, gap);
      r[hi := r[hi + gap]][hi + gap := NULL] == SlidLeft(slots, lo, hi + 1, gap)
  {
  }

  /** Moving the gap left of where it is changes no element, however long the way is compared with
      the length of the gap. */
  lemma {:induction false} GapMovesLeft(slots: seq<Ptr>, free: nat, count: nat, at: nat)
    requires Gapped(slots, free, count) && at < free && count < |slots|
    ensures var r := SlidRight(slots, at, free, |slots| - count);
      Gapped(r, at, count) && ViewOf(r, at, count) == ViewOf(slots, free, count)
  {
    var gap := |slots| - count;
    var r := SlidRight(slots, at, free, gap);
    forall i | 0 <= i < count ensures ViewOf(r, at, count)[i] == ViewOf(slots, free, count)[i] {
      if at <= i < free {
        assert r[i + gap] == slots[i];
      }
    }
  }

  lemma {:induction false} GapMovesRight(slots: seq<Ptr>, free: nat, count: nat, at: nat)
    requires Gapped(slots, free, count) && free <= at <= count < |slots|
    ensures var r := SlidLeft(slots, free, at, |slots| - count);
      Gapped(r, at, count) && ViewOf(r, at, count) == ViewOf(slots, free, count)
  {
    var gap := |slots| - count;
    var r := SlidLeft(slots, free, at, gap);
    forall i | 0 <= i < count ensures ViewOf(r, at, count)[i] == ViewOf(slots, free, count)[i] {
      if free <= i < at {
        assert r[i] == slots[i + gap];
      }
    }
  }

  /** Storing an element at the start of the gap inserts it there. */
  lemma {:induction false} FillingInserts(slots: seq<Ptr>, at: nat, count: nat, o: Ptr)
    requires Gapped(slots, at, count) && count < |slots|
    ensures Gapped(slots[at := o], at + 1, count + 1)
    ensures ViewOf(slots[at := o], at + 1, count + 1) == InsertAt(ViewOf(slots, at, count), at, o)
  {
  }

  function InsertAt(v: seq<Ptr>, at: nat, o: Ptr): (r: seq<Ptr>)
    requires at <= |v|
  {
    v[..at] + [o] + v[at..]
  }

  function DeleteAt(v: seq<Ptr>, at: nat): (r: seq<Ptr>)
    requires at < |v|
  {
    v[..at] + v[at + 1..]
  }

  /** Taking the element at `at` out of a list whose gap has been moved next to it. */
  lemma {:induction false} EmptyingDeletes(slots: seq<Ptr>, free: nat, count: nat, at: nat)
    requires Gapped(slots, free, count) && at < count && (free == at || free == at + 1)
    requires ViewOf(slots, free, count)[at] == NULL
    ensures Gapped(slots, at, count - 1)
    ensures ViewOf(slots, at, count - 1) == DeleteAt(ViewOf(slots, free, count), at)
  {
  }

  /** With no gap, the position of an element does not depend on where the gap is said to be. */
  lemma {:induction false} FullListHasNoGap(slots: seq<Ptr>, free: nat, at: nat)
    requires free <= |slots| && at <= |slots|
    ensures Gapped(slots, at, |slots|) && ViewOf(slots, free, |slots|) == ViewOf(slots, at, |slots|) == slots
  {
  }

  /** The index of the first o in v, or |v|. */
  function FirstIndex(v: seq<Ptr>, o: Ptr): (i: nat)
    ensures i <= |v| && (forall j :: 0 <= j < i ==> v[j] != o) && (i < |v| ==> v[i] == o)
  {
    if v == [] || v[0] == o then 0 else 1 + FirstIndex(v[1..], o)
  }

  predicate ArrayIsSafe(free: nat, capacity: nat, count: nat, s: nat, n: nat) {
    || s >= free
    || (count < capacity && s + n >= free)
    || (count == capacity && s + n <= free)
  }

  /** The slots after array() has cleared the way for elements s..s+n that begin left of the gap. */
  ghost function ClosedUp(slots: seq<Ptr>, free: nat, count: nat, e: nat): (r: seq<Ptr>)
    requires free <= count <= |slots| && e <= count
    ensures |r| == |slots|
  {
    if free <= e then SlidLeft(slots, free, e, |slots| - count) else slots
  }

  lemma {:induction false} ClosingUp(slots: seq<Ptr>, free: nat, count: nat, s: nat, n: nat)
    requires Gapped(slots, free, count) && s < free && s + n <= count
    ensures var r, v := ClosedUp(slots, free, count, s + n), ViewOf(slots, free, count);
      && (ArrayIsSafe(free, |slots|, count, s, n) ==>
        Gapped(r, s + n, count) && ViewOf(r, s + n, count) == v && r[s..s + n] == v[s..s + n])
      && (NULL !in v && !ArrayIsSafe(free, |slots|, count, s, n) ==>
        !Gapped(r, s + n, count) || ViewOf(r, s + n, count) != v)
  {
    var r, v, e := ClosedUp(slots, free, count, s + n), ViewOf(slots, free, count), s + n;
    if count < |slots| {
      if free <= e {
        GapMovesRight(slots, free, count, e);
        assert r[s..e] == ViewOf(r, e, count)[s..e];
      } else {
        assert r[e] == v[e];
      }
    } else if free < e {
      assert ViewOf(r, e, count)[free] == NULL;
    } else {
      assert r == slots;
      FullListHasNoGap(slots, free, e);
    }
  }

  /** Two elements and a gap: asking for the first one alone moves the gap without moving the second. */
  lemma {:induction false} ArrayBreaksList(x: Ptr, y: Ptr)
    requires x != NULL && y != NULL
    ensures var slots := [x, y, NULL];
      && Gapped(slots, 2, 2) && ViewOf(slots, 2, 2) == [x, y]
      && ViewOf(ClosedUp(slots, 2, 2, 1), 1, 2) == [x, NULL]
  {
    var slots := [x, y, NULL];
    assert ViewOf(slots, 1, 2)[1] == slots[2];
  }

  lemma {:induction false} RightOfGap(slots: seq<Ptr>, free: nat, count: nat, s: nat, n: nat)
    requires Gapped(slots, free, count) && free <= s && s + n <= count
    ensures var p := s + |slots| - count; slots[p..p + n] == ViewOf(slots, free, count)[s..s + n]
  {
  }

  class BtList {
    var elements: array?<Ptr>
    var capacity: nat
    var count: nat
    var free: nat
    /** How many elements all expansions so far have added again. */
    ghost var readded: nat

    ghost predicate Allocated()
      reads this
    {
      if elements == null then capacity == 0 else elements.Length == capacity
    }

    ghost function Raw(): seq<Ptr>
      reads this, elements
    {
      if elements == null then [] else elements[..]
    }

    ghost predicate Valid()
      reads this, elements
    {
      Allocated() && Gapped(Raw(), free, count)
    }

    ghost function View(): (v: seq<Ptr>)
      requires Valid()
      reads this, elements
      ensures |v| == count
    {
      ViewOf(Raw(), free, count)
    }

    constructor (size: nat)
      ensures Valid() && View() == [] && capacity == size && readded == 0
      ensures elements == null || fresh(elements)
    {
      elements, capacity, count, free, readded := null, 0, 0, 0, 0;
      new;
      if size > 0 {
        NewCapacity(size);
      }
    }

    /** Copy construction: room for the other list's slots, then assignment. */
    constructor CopyOf(other: BtList)
      requires other.Valid()
      ensures Valid() && View() == Compact(other.View())
      ensures capacity == other.capacity
      ensures elements == null || fresh(elements)
    {
      elements, capacity, count, free, readded := null, 0, 0, 0, 0;
      new;
      if other.capacity > 0 {
        NewCapacity(other.capacity);
      }
      Assign(other);
    }

    /** BtArray::emptyYourself below BtList's own: all slots null, no elements. */
    method EmptyYourself()
      requires Allocated()
      modifies this`count, this`free, elements
      ensures Valid() && View() == [] && AllNull(Raw())
    {
      count, free := 0, 0;
      if elements != null {
        for p := 0 to capacity
          modifies elements
          invariant AllNull(elements[..p])
        {
          elements[p] := NULL;
        }
      }
    }

    method RemoveArray()
      modifies this`elements, this`capacity, this`count, this`free
      ensures elements == null && capacity == 0 && count == 0 && free == 0
    {
      elements, capacity := null, 0;
      count, free := 0, 0;
    }

    /** Does not look at the old capacity: expansion calls it after giving its slots away. */
    method NewCapacity(size: nat)
      modifies this`elements, this`capacity, this`count, this`free
      ensures Valid() && View() == [] && AllNull(Raw())
      ensures elements != null && fresh(elements) && capacity == size
    {
      if elements != null {
        RemoveArray();
      }
      elements, capacity := new Ptr[size], size;
      EmptyYourself();
    }

    function Position(i: nat): (p: nat)
      requires Valid() && i < count
      reads this, elements
      ensures elements != null && p < elements.Length
      ensures elements[p] == View()[i]
    {
      PositionOf(capacity, free, count, i)
    }

    method At(i: nat) returns (o: Ptr)
      requires Valid() && i < count
      ensures o == View()[i]
    {
      o := elements[Position(i)];
    }

    method AtPut(i: nat, o: Ptr) returns (was: Ptr)
      requires Valid() && i < count
      modifies elements
      ensures Valid() && View() == old(View())[i := o] && was == old(View())[i]
    {
      var p := Position(i);
      was := elements[p];
      elements[p] := o;
    }

    /** rightPosition is n + capacity - count. */
    method LeftToRightOne(n: nat)
      requires Allocated() && elements != null && n < count <= capacity
      modifies elements
      ensures var gap, was := capacity - count, old(elements[..]);
        elements[..] == was[n + gap := was[n]][n := NULL]
    {
      elements[n + capacity - count] := elements[n];
      elements[n] := NULL;
    }

    /** Slides the elements s, s-1, .., e over a gap of at least one slot, last one first, so that
        overlapping source and target ranges do no harm. */
    method LeftToRight(s: int, e: nat)
      requires Allocated() && elements != null && e - 1 <= s < count < capacity
      requires NullsAt(elements[..], s + 1, capacity - count)
      modifies elements
      ensures elements[..] == SlidRight(old(elements[..]), e, s + 1, capacity - count)
    {
      hide SlidRight;
      hide NullsAt;
      ghost var was := elements[..];
      ghost var gap := capacity - count;
      NothingSlid(was, s + 1, gap);
      var i := s;
      while i >= e
        invariant e - 1 <= i <= s
        invariant elements[..] == SlidRight(was, i + 1, s + 1, gap)
      {
        SlidRightStep(was, i, s + 1, gap);
        LeftToRightOne(i);
        i := i - 1;
      }
    }

    method RightToLeftOne(n: nat)
      requires Allocated() && elements != null && count <= capacity && n < count
      modifies elements
      ensures var gap, was := capacity - count, old(elements[..]);
        elements[..] == was[n := was[n + gap]][n + gap := NULL]
    {
      elements[n] := elements[n + capacity - count];
      elements[n + capacity - count] := NULL;
    }

    /** Slides the elements s, .., e-1 back over the gap, first one first. */
    method RightToLeft(s: nat, e: nat)
      requires Allocated() && elements != null && s <= e <= count <= capacity
      requires NullsAt(elements[..], s, capacity - count)
      modifies elements
      ensures elements[..] == SlidLeft(old(elements[..]), s, e, capacity - count)
    {
      hide SlidLeft;
      hide NullsAt;
      ghost var was := elements[..];
      ghost var gap := capacity - count;
      NothingSlid(was, s, gap);
      var i := s;
      while i < e
        invariant s <= i <= e
        invariant elements[..] == SlidLeft(was, s, i, gap)
      {
        SlidLeftStep(was, s, i, gap);
        RightToLeftOne(i);
        i := i + 1;
      }
    }

    method MoveGap(at: nat)
      requires Valid() && at <= count < capacity
      modifies elements
      ensures elements != null && elements.Length == capacity
      ensures Gapped(elements[..], at, count)
      ensures ViewOf(elements[..], at, count) == old(View())
    {
      hide SlidLeft;
      hide SlidRight;
      hide NullsAt;
      hide ViewOf;
      ghost var was := elements[..];
      GapIsNull(was, free, count);
      assert Gapped(was, free, count) && View() == ViewOf(was, free, count);
      hide Gapped;
      if at < free {
        LeftToRight(free - 1, at);
        GapMovesLeft(was, free, count, at);
      } else if at > free {
        RightToLeft(free, at);
        GapMovesRight(was, free, count, at);
      }
    }

    method Fill(at: nat, o: Ptr)
      requires elements != null && elements.Length == capacity && count < capacity
      requires Gapped(elements[..], at, count)
      modifies this`free, this`count, elements
      ensures Valid() && View() == old(InsertAt(ViewOf(elements[..], at, count), at, o))
    {
      FillingInserts(elements[..], at, count, o);
      free := at + 1;
      count := count + 1;
      elements[at] := o;
    }

    /** An insertion into a full list grows the list first, and growing rescans the slots. */
    method Insert(at: nat, o: Ptr) returns (r: Ptr)
      requires Valid() && at <= count
      requires count == capacity ==> at <= |Compact(View())|
      modifies this, elements
      ensures Valid() && r == o
      ensures elements == old(elements) || fresh(elements)
      ensures old(count < capacity) ==>
        && View() == InsertAt(old(View()), at, o)
        && capacity == old(capacity) && readded == old(readded) && elements == old(elements)
      ensures old(count == capacity) ==>
        && View() == InsertAt(Compact(old(View())), at, o)
        && capacity == 2 * (old(capacity) + 1)
        && readded == old(readded) + |Compact(old(View()))|
      decreases if count < capacity then 0 else 3, 0
    {
      if count >= capacity {
        Expand();
      }
      MoveGap(at);
      Fill(at, o);
      r := o;
    }

    method Append(o: Ptr) returns (r: Ptr)
      requires Valid()
      requires count == capacity ==> NULL !in View()
      modifies this, elements
      ensures Valid() && r == o && View() == old(View()) + [o]
      ensures elements == old(elements) || fresh(elements)
      ensures old(count < capacity) ==>
        capacity == old(capacity) && readded == old(readded) && elements == old(elements)
      ensures old(count == capacity) ==>
        capacity == 2 * (old(capacity) + 1) && readded == old(readded) + old(count)
      decreases if count < capacity then 0 else 3, 1
    {
      CompactFixpoint(View());
      r := Insert(count, o);
    }

    method Prepend(o: Ptr) returns (r: Ptr)
      requires Valid()
      modifies this, elements
      ensures Valid() && r == o
      ensures elements == old(elements) || fresh(elements)
      ensures View() == [o] + old(if count < capacity then View() else Compact(View()))
      ensures old(count < capacity) ==> capacity == old(capacity) && readded == old(readded)
      ensures old(count == capacity) ==>
        capacity == 2 * (old(capacity) + 1) && readded == old(readded) + |Compact(old(View()))|
    {
      r := Insert(0, o);
    }

    method RemoveAt(at: nat) returns (was: Ptr)
      requires Valid() && at < count
      modifies this`free, this`count, elements
      ensures Valid() && was == old(View())[at] && View() == DeleteAt(old(View()), at)
    {
      was := AtPut(at, NULL);
      assert DeleteAt(View(), at) == DeleteAt(old(View()), at);
      CloseAt(at);
    }

    /** Without a gap, the loops of leftToRight and rightToLeft make no round. */
    method GapTo(at: nat)
      requires Valid() && at <= count && elements != null
      modifies elements
      ensures Gapped(elements[..], at, count) && ViewOf(elements[..], at, count) == old(View())
    {
      if count < capacity {
        MoveGap(at);
      } else {
        FullListHasNoGap(elements[..], free, at);
      }
    }

    /** The second half of removeAt: the gap takes in the slot that has just been cleared. */
    method CloseAt(at: nat)
      requires Valid() && at < count && View()[at] == NULL
      modifies this`free, this`count, elements
      ensures Valid() && View() == DeleteAt(old(View()), at)
    {
      hide DeleteAt;
      hide PositionOf;
      ghost var v := View();
      var next := if at < free then at + 1 else at;
      GapTo(next);
      ghost var slots := elements[..];
      EmptyingDeletes(slots, next, count, at);
      hide ViewOf;
      hide Gapped;
      free := at;
      count := count - 1;
      assert Raw() == slots;
    }

    /** The virtual add through which copying refills the list. */
    method Add(o: Ptr) returns (r: Ptr)
      requires Valid()
      requires count == capacity ==> NULL !in View()
      modifies this, elements
      ensures Valid() && r == o && View() == old(View()) + [o]
      ensures elements == old(elements) || fresh(elements)
      ensures old(count < capacity) ==>
        capacity == old(capacity) && readded == old(readded) && elements == old(elements)
      ensures old(count == capacity) ==>
        capacity == 2 * (old(capacity) + 1) && readded == old(readded) + old(count)
      decreases if count < capacity then 0 else 3, 2
    {
      r := Append(o);
    }

    /** Refills this list with the non-null slots of `from`. A list copied onto itself is emptied
        before it is read. */
    method CopyElements(s: nat, from: array?<Ptr>)
      requires Allocated()
      requires from != null ==> from.Length == s
      modifies this, elements
      ensures Valid() && readded == old(readded)
      ensures elements == old(elements) || fresh(elements)
      ensures View() == if from == null || from == old(elements) then [] else Compact(old(from[..]))
      ensures capacity == if from == null || s <= old(capacity) then old(capacity) else s
      decreases 2, 0
    {
      EmptyYourself();
      if from == null {
        return;
      }
      if s > capacity {
        NewCapacity(s);
      }
      CompactFixpoint(from[..]);
      for i := 0 to s
        invariant Valid() && readded == old(readded)
        invariant elements == old(elements) || fresh(elements)
        invariant capacity == if s <= old(capacity) then old(capacity) else s
        invariant from != old(elements) ==> from[..] == old(from[..]) && from != elements
        invariant from == old(elements) ==> AllNull(from[..])
        invariant View() == if from == old(elements) then [] else Compact(from[..i])
      {
        CompactSnoc(from[..], i);
        assert from[..][..i + 1] == from[..i + 1] && from[..][..i] == from[..i];
        CompactFixpoint(from[..i]);
        if from[i] != NULL {
          var _ := Add(from[i]);
        }
      }
      assert from[..s] == from[..];
    }

    /** BtArray::oldElements: gives the slot array away and keeps the stale capacity. */
    method OldElements() returns (s: nat, old_: array?<Ptr>)
      modifies this`elements
      ensures s == capacity && old_ == old(elements) && elements == null
    {
      s, old_ := capacity, elements;
      elements := null;
    }

    method Expand()
      requires Valid() && count == capacity
      modifies this, elements
      ensures Valid() && View() == Compact(old(View())) && count < capacity
      ensures elements != null && fresh(elements)
      ensures capacity == 2 * (old(capacity) + 1)
      ensures readded == old(readded) + count
      decreases 2, 1
    {
      RescanSeesView(Raw(), free, count);
      CompactFixpoint(Raw());
      ghost var was := Raw();
      var s, slots := OldElements();
      NewCapacity((s + 1) * 2);
      CopyElements(s, slots);
      readded := readded + count;
    }

    /** operator=, as BtArray defines it over the raw slots. */
    method Assign(other: BtList)
      requires Valid() && other.Valid()
      modifies this, elements
      ensures Valid() && readded == old(readded)
      ensures elements == old(elements) || fresh(elements)
      ensures View() == old(if elements == other.elements then [] else Compact(other.View()))
      ensures capacity == old(if other.capacity <= capacity then capacity else other.capacity)
    {
      RescanSeesView(other.Raw(), other.free, other.count);
      CopyElements(other.capacity, other.elements);
    }

    /** The slots of `n` consecutive elements, as the index of the first one. The caller promises only
        that the elements exist. The list survives the call exactly when the elements lie right of
        the gap, or can be closed up over a real gap, or nothing has to move because there is none. */
    method Array(s: nat, n: nat) returns (p: nat)
      requires Valid() && s + n <= count
      modifies this`free, elements
      ensures ArrayIsSafe(old(free), capacity, count, s, n) ==>
        Valid() && View() == old(View()) && p + n <= |Raw()| && Raw()[p..p + n] == View()[s..s + n]
      ensures old(NULL !in View()) ==>
        (ArrayIsSafe(old(free), capacity, count, s, n) <==> Valid() && View() == old(View()))
    {
      ghost var slots := Raw();
      if s >= free {
        p := s + capacity - count;
        RightOfGap(slots, free, count, s, n);
      } else {
        p := s;
        ClosingUp(slots, free, count, s, n);
        hide ClosedUp;
        hide ArrayIsSafe;
        hide ViewOf;
        hide Gapped;
        CloseUp(s + n);
        assert Raw() == ClosedUp(slots, old(free), count, s + n);
      }
    }

    method CloseUp(e: nat)
      requires Valid() && elements != null && e <= count
      modifies this`free, elements
      ensures free == e
      ensures elements[..] == ClosedUp(old(elements[..]), old(free), count, e)
    {
      hide ViewOf;
      hide SlidLeft;
      var lo := free;
      free := e;
      if lo <= e {
        assert forall k :: lo <= k < lo + capacity - count ==> elements[k] == old(Raw())[k];
        RightToLeft(lo, e);
      }
    }

    /** BtArray::findAt over the logical indices. */
    method FindAt(o: Ptr) returns (found: Ptr, s: nat)
      requires Valid()
      ensures if o in View() then found == o && s == FirstIndex(View(), o) else found == NULL
    {
      ghost var v := View();
      s := 0;
      for i := 0 to count
        invariant forall j :: 0 <= j < i ==> v[j] != o
      {
        var c := At(i);
        if o == c {
          return c, i;
        }
      }
      found := NULL;
    }

    method Remove(o: Ptr) returns (was: Ptr)
      requires Valid()
      modifies this`free, this`count, elements
      ensures Valid()
      ensures o != NULL && o in old(View()) ==>
        was == o && View() == DeleteAt(old(View()), FirstIndex(old(View()), o))
      ensures o == NULL || o !in old(View()) ==> was == NULL && View() == old(View())
    {
      var n;
      was, n := FindAt(o);
      if was != NULL {
        var _ := RemoveAt(n);
      }
    }

    method AddIfAbsent(o: Ptr) returns (r: Ptr)
      requires Valid()
      requires count == capacity ==> NULL !in View() || (o != NULL && o in View())
      modifies this, elements
      ensures Valid() && r == o
      ensures elements == old(elements) || fresh(elements)
      ensures View() == if o != NULL && o in old(View()) then old(View()) else old(View()) + [o]
      ensures if old(count == capacity) && View() != old(View())
        then capacity == 2 * (old(capacity) + 1) && readded == old(readded) + old(count)
        else capacity == old(capacity) && readded == old(readded)
    {
      var found, _ := FindAt(o);
      if found == NULL {
        r := Add(o);
      } else {
        r := found;
      }
    }
  }

  // ---------- whole runs ----------

  datatype Op =
    | Insert(at: nat, o: Ptr)
    | Append(o: Ptr)
    | Prepend(o: Ptr)
    | AddIfAbsent(o: Ptr)
    | RemoveAt(at: nat)
    | Remove(o: Ptr)
    | AtPut(at: nat, o: Ptr)

  /** Indices in range (otherwise rangeError aborts) and no null elements. */
  ghost predicate Enabled(v: seq<Ptr>, op: Op) {
    match op
    case Insert(at, o) => at <= |v| && o != NULL
    case Append(o) => o != NULL
    case Prepend(o) => o != NULL
    case AddIfAbsent(o) => o != NULL
    case RemoveAt(at) => at < |v|
    case Remove(o) => true
    case AtPut(at, o) => at < |v| && o != NULL
  }

  /** The operation on a plain sequence. */
  ghost function Step(v: seq<Ptr>, op: Op): seq<Ptr>
    requires Enabled(v, op)
  {
    match op
    case Insert(at, o) => InsertAt(v, at, o)
    case Append(o) => v + [o]
    case Prepend(o) => [o] + v
    case AddIfAbsent(o) => if o in v then v else v + [o]
    case RemoveAt(at) => DeleteAt(v, at)
    case Remove(o) => if o in v then DeleteAt(v, FirstIndex(v, o)) else v
    case AtPut(at, o) => v[at := o]
  }

  ghost predicate Runnable(v: seq<Ptr>, ops: seq<Op>)
    decreases ops
  {
    ops == [] || (Enabled(v, ops[0]) && Runnable(Step(v, ops[0]), ops[1..]))
  }

  ghost function RunOn(v: seq<Ptr>, ops: seq<Op>): seq<Ptr>
    requires Runnable(v, ops)
    decreases ops
  {
    if ops == [] then v else RunOn(Step(v, ops[0]), ops[1..])
  }

  /** How many operations of the run can have added an element. */
  ghost function Adds(ops: seq<Op>): nat {
    if ops == [] then 0
    else (if ops[0].RemoveAt? || ops[0].Remove? || ops[0].AtPut? then 0 else 1) + Adds(ops[1..])
  }

  lemma {:induction false} NullsStayOut(v: seq<Ptr>, op: Op)
    requires NULL !in v && Enabled(v, op)
    ensures NULL !in Step(v, op)
    ensures |Step(v, op)| <= |v| + Adds([op])
  {
    assert [op][1..] == [];
  }

  /** One operation, on the list and on its sequence. */
  method Perform(l: BtList, op: Op)
    requires l.Valid() && NULL !in l.View() && Enabled(l.View(), op)
    modifies l, l.elements
    ensures l.Valid() && l.View() == Step(old(l.View()), op)
    ensures l.elements == old(l.elements) || fresh(l.elements)
    ensures l.capacity == old(l.capacity) ==> l.readded == old(l.readded)
    ensures l.capacity != old(l.capacity) ==>
      && l.capacity == 2 * (old(l.capacity) + 1) == 2 * l.count
      && l.readded == old(l.readded) + old(l.capacity)
      && Adds([op]) == 1
  {
    assert [op][1..] == [];
    CompactFixpoint(l.View());
    match op
    case Insert(at, o) => var _ := l.Insert(at, o);
    case Append(o) => var _ := l.Append(o);
    case Prepend(o) => var _ := l.Prepend(o);
    case AddIfAbsent(o) => var _ := l.AddIfAbsent(o);
    case RemoveAt(at) => var _ := l.RemoveAt(at);
    case Remove(o) => var _ := l.Remove(o);
    case AtPut(at, o) => var _ := l.AtPut(at, o);
  }

  /** Every run on the gap buffer computes what the same run computes on a plain sequence. From an
      empty, unallocated list, growth costs at most a constant per addition: both the capacity and
      the number of elements added again by all expansions stay below twice the additions. */
  method Run(l: BtList, ops: seq<Op>)
    requires l.Valid() && NULL !in l.View() && Runnable(l.View(), ops)
    modifies l, l.elements
    ensures l.Valid() && l.View() == RunOn(old(l.View()), ops)
    ensures old(l.capacity == 0 && l.readded == 0) ==>
      l.capacity <= 2 * Adds(ops) && (Adds(ops) > 0 ==> l.readded < 2 * Adds(ops))
  {
    ghost var v, total, done := l.View(), Adds(ops), 0;
    ghost var start := l.capacity == 0 && l.readded == 0;
    assert ops[0..] == ops;
    RunEnds(v, []);
    hide Runnable;
    hide RunOn;
    hide Step;
    hide Enabled;
    hide Adds;
    hide ViewOf;
    hide Gapped;
    for i := 0 to |ops|
      invariant l.elements == old(l.elements) || fresh(l.elements)
      invariant l.Valid() && NULL !in l.View()
      invariant Runnable(l.View(), ops[i..]) && RunOn(l.View(), ops[i..]) == RunOn(v, ops)
      invariant start ==> total == done + Adds(ops[i..]) && l.count <= done
      invariant start ==> l.capacity <= 2 * done
      invariant start ==> if l.capacity == 0 then l.readded == 0 else l.readded + 2 <= l.capacity
    {
      RunUnfolds(l.View(), ops, i);
      NullsStayOut(l.View(), ops[i]);
      done := done + Adds([ops[i]]);
      Perform(l, ops[i]);
    }
    RunEnds(l.View(), ops[|ops|..]);
  }

  lemma {:induction false} RunUnfolds(v: seq<Ptr>, ops: seq<Op>, i: nat)
    requires i < |ops| && Runnable(v, ops[i..])
    ensures Enabled(v, ops[i]) && Runnable(Step(v, ops[i]), ops[i + 1..])
    ensures RunOn(v, ops[i..]) == RunOn(Step(v, ops[i]), ops[i + 1..])
    ensures Adds(ops[i..]) == Adds([ops[i]]) + Adds(ops[i + 1..])
  {
    assert ops[i..][1..] == ops[i + 1..];
    assert [ops[i]][1..] == [];
  }

  lemma {:induction false} RunEnds(v: seq<Ptr>, ops: seq<Op>)
    requires ops == []
    ensures Runnable(v, ops) && RunOn(v, ops) == v && Adds(ops) == 0
  {
  }
}
