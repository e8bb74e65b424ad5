/** The linked list that kBuffer.c, kRecvTimeoutTimer.c and kData.c each write out. */
module TailList {

  /** The items from the start pointer on, and the tail pointer exactly where the code leaves it: `last`
      is the index of the item it points to, -1 when that one is no longer in the list. */
  datatype Tailed<T> = Tailed(items: seq<T>, last: int)

  predicate Linked<T>(l: Tailed<T>) {
    -1 <= l.last < |l.items|
  }

  predicate TailOk<T>(l: Tailed<T>) {
    l.items == [] || l.last == |l.items| - 1
  }

  function Empty<T>(): Tailed<T> {
    Tailed([], -1)
  }

  /** Appending writes the new item into the next field of the tail pointer's item. */
  function Appended<T>(l: Tailed<T>, x: T): (r: Tailed<T>)
    requires Linked(l)
    ensures Linked(r)
  {
    if l.items == [] then Tailed([x], 0)
    else if l.last >= 0 then Tailed(l.items[..l.last + 1] + [x], l.last + 1)
    else l
  }

  /** Item i is unlinked; unless it was the first one, the tail pointer moves to its predecessor. */
  function Unlinked<T>(l: Tailed<T>, i: nat): (r: Tailed<T>)
    requires Linked(l) && i < |l.items|
    ensures Linked(r)
  {
    Tailed(l.items[..i] + l.items[i + 1..], if i > 0 then i - 1 else if l.last > 0 then l.last - 1 else -1)
  }

  /** Appending appends exactly when the tail pointer points to the last item. */
  lemma {:induction false} AppendsIff<T>(l: Tailed<T>, x: T)
    requires Linked(l)
    ensures Appended(l, x).items == l.items + [x] <==> TailOk(l)
    ensures TailOk(l) ==> TailOk(Appended(l, x))
  {
    if TailOk(l) && l.items != [] {
      assert l.items[..l.last + 1] == l.items;
    } else if l.items != [] {
      assert |Appended(l, x).items| <= |l.items|;
    }
  }

  /** What gets lost when x is appended: all behind the item that the tail pointer points to, or x itself
      when that item is gone. */
  function CutOff<T>(l: Tailed<T>, x: T): seq<T>
    requires Linked(l)
  {
    if TailOk(l) then [] else if l.last >= 0 then l.items[l.last + 1..] else [x]
  }

  /** The items kept, and x, are the new list, unless x is what gets lost; nothing does exactly when the
      tail pointer is right. */
  lemma {:induction false} AppendingCuts<T>(l: Tailed<T>, x: T) returns (kept: seq<T>)
    requires Linked(l)
    ensures CutOff(l, x) == [] <==> TailOk(l)
    ensures (Appended(l, x).items == kept + [x] && l.items == kept + CutOff(l, x))
      || (Appended(l, x).items == l.items == kept && CutOff(l, x) == [x])
  {
    kept := if TailOk(l) || l.last < 0 then l.items else l.items[..l.last + 1];
    if TailOk(l) {
      AppendsIff(l, x);
      assert l.items == kept + [];
    }
  }

  /** Unlinking leaves the tail pointer on the last item exactly when the last item was unlinked, or
      the first one while the tail pointer was right. */
  lemma {:induction false} UnlinkKeepsTailIff<T>(l: Tailed<T>, i: nat)
    requires Linked(l) && i < |l.items|
    ensures TailOk(Unlinked(l, i)) <==> i == |l.items| - 1 || (i == 0 && TailOk(l))
  {
  }

  /** Neither brings in anything else. */
  lemma {:induction false} NothingElse<T>(l: Tailed<T>, x: T)
    requires Linked(l)
    ensures forall y :: y in Appended(l, x).items ==> y in l.items || y == x
    ensures forall i, y :: 0 <= i < |l.items| && y in Unlinked(l, i).items ==> y in l.items
  {
  }
}
