/** kBuffer.c: for each socket, the bytes that were received but do not yet make a whole message. */
module LeftData {
  import opened Wrappers
  import opened TailList

  datatype Entry = Entry(id: int, data: Bytes)

  /** The table: the list and g_ld_datanum. */
  datatype Store = Store(list: Tailed<Entry>, num: int)

  ghost predicate DistinctIds(es: seq<Entry>) {
    forall i, j :: 0 <= i < j < |es| ==> es[i].id != es[j].id
  }

  ghost predicate Valid(s: Store) {
    Linked(s.list) && DistinctIds(s.list.items) && |s.list.items| <= s.num
  }

  /** The table is what it is meant to be: the tail pointer and the counter are right. */
  ghost predicate Sound(s: Store) {
    Valid(s) && TailOk(s.list) && s.num == |s.list.items|
  }

  /** The first entry of a socket, or |es|. */
  function Find(es: seq<Entry>, id: int): (i: nat)
    ensures i <= |es| && (i < |es| ==> es[i].id == id)
    ensures forall j :: 0 <= j < i ==> es[j].id != id
  {
    if es == [] || es[0].id == id then 0 else 1 + Find(es[1..], id)
  }

  /** kBufferSet; maxId is g_socket_socketid, the largest socket id in use. */
  function Set(s: Store, maxId: int, id: int, data: Bytes): (r: (Store, bool))
    requires Valid(s)
    ensures Valid(r.0)
  {
    if s.num == maxId || Find(s.list.items, id) < |s.list.items| then (s, false)
    else (Store(Appended(s.list, Entry(id, data)), s.num + 1), true)
  }

  /** kBufferGet; no entry gives no bytes. */
  function Get(s: Store, id: int): (r: (Store, Bytes))
    requires Valid(s)
    ensures Valid(r.0)
  {
    var i := Find(s.list.items, id);
    if s.num == 0 || i == |s.list.items| then (s, [])
    else
      assert forall j :: 0 <= j < |s.list.items| - 1 ==>
        Unlinked(s.list, i).items[j] == s.list.items[if j < i then j else j + 1];
      (Store(Unlinked(s.list, i), s.num - 1), s.list.items[i].data)
  }

  /** What a socket's entry holds: the table as a map. */
  function Lookup(es: seq<Entry>, id: int): (r: Option<Bytes>) {
    var i := Find(es, id);
    if i == |es| then None else Some(es[i].data)
  }

  ghost predicate IdsUpTo(es: seq<Entry>, maxId: int) {
    forall e :: e in es ==> 1 <= e.id <= maxId
  }

  // ---------- set and get against the map ----------

  lemma {:induction false} LookupIs(es: seq<Entry>, i: nat)
    requires DistinctIds(es) && i < |es|
    ensures Find(es, es[i].id) == i && Lookup(es, es[i].id) == Some(es[i].data)
  {
  }

  /** An entry is added to the map exactly when the tail pointer is right; otherwise entries are cut
      off the list, or the new one never gets into it. */
  lemma {:induction false} SetIsUpdateIff(s: Store, maxId: int, id: int, data: Bytes)
    requires Valid(s) && s.num != maxId && Lookup(s.list.items, id).None?
    ensures var es, (r, ok) := s.list.items, Set(s, maxId, id, data);
      && ok
      && ((forall k :: Lookup(r.list.items, k) == if k == id then Some(data) else Lookup(es, k)) <==> TailOk(s.list))
      && (Sound(s) ==> Sound(r))
  {
    var es, es' := s.list.items, Set(s, maxId, id, data).0.list.items;
    AppendsIff(s.list, Entry(id, data));
    if TailOk(s.list) {
      assert es' == es + [Entry(id, data)];
      forall k ensures Lookup(es', k) == if k == id then Some(data) else Lookup(es, k) {
        FindInExtended(es, Entry(id, data), k);
      }
    } else {
      CutsOff(s.list, Entry(id, data));
    }
  }

  lemma {:induction false} FindInExtended(es: seq<Entry>, e: Entry, k: int)
    ensures Lookup(es + [e], k) ==
      if Find(es, k) < |es| then Lookup(es, k) else if k == e.id then Some(e.data) else None
  {
    var i, j := Find(es, k), Find(es + [e], k);
    assert i < |es| ==> (es + [e])[i] == es[i];
    assert j < |es| ==> (es + [e])[j] == es[j];
    assert (es + [e])[|es|] == e;
  }

  /** With a wrong tail pointer, the last entry is lost or the new one is. */
  lemma {:induction false} CutsOff(l: Tailed<Entry>, e: Entry)
    requires Linked(l) && DistinctIds(l.items) && !TailOk(l) && Lookup(l.items, e.id).None?
    ensures var lost := l.items[|l.items| - 1].id;
      && Lookup(l.items, lost).Some?
      && (Lookup(Appended(l, e).items, lost).None? || Lookup(Appended(l, e).items, e.id).None?)
  {
    var es, es' := l.items, Appended(l, e).items;
    LookupIs(es, |es| - 1);
    if l.last >= 0 {
      assert Find(es', es[|es| - 1].id) == |es'|;
    }
  }

  /** Taking an entry out is right for the map whatever the tail pointer is; the tail pointer is right
      afterwards exactly when the entry stood at the end of the list or, with a right tail pointer, at
      its front. */
  lemma {:induction false} GetTakesOut(s: Store, id: int)
    requires Valid(s)
    ensures var es, (r, data) := s.list.items, Get(s, id);
      && (forall k :: Lookup(r.list.items, k) == if k == id then None else Lookup(es, k))
      && data == (if Lookup(es, id).Some? then Lookup(es, id).value else [])
      && (TailOk(r.list) <==> Find(es, id) == |es| - 1 || (Find(es, id) in {0, |es|} && TailOk(s.list)))
      && (Sound(s) && TailOk(r.list) ==> Sound(r))
  {
    var es := s.list.items;
    var i := Find(es, id);
    if i < |es| {
      UnlinkKeepsTailIff(s.list, i);
      var es' := es[..i] + es[i + 1..];
      assert Get(s, id) == (Store(Unlinked(s.list, i), s.num - 1), es[i].data);
      hide Find;
      forall k ensures Lookup(es', k) == if k == id then None else Lookup(es, k) {
        FindInShortened(es, i, k);
      }
    }
  }

  lemma {:induction false} FindInShortened(es: seq<Entry>, i: nat, k: int)
    requires DistinctIds(es) && i < |es|
    ensures Lookup(es[..i] + es[i + 1..], k) == if k == es[i].id then None else Lookup(es, k)
  {
    var es' := es[..i] + es[i + 1..];
    assert forall m :: 0 <= m < |es'| ==> es'[m] == es[if m < i then m else m + 1];
    var j := Find(es, k);
    if j < |es| && j != i {
      var m := if j < i then j else j - 1;
      assert es'[m] == es[j] && DistinctIds(es');
      LookupIs(es', m);
    }
  }

  /** With socket ids in 1..maxId, the test for a full table never refuses an id that has no entry. */
  lemma {:induction false} NeverFull(s: Store, maxId: int, id: int)
    requires Valid(s) && s.num == |s.list.items| && IdsUpTo(s.list.items, maxId)
    requires 1 <= id <= maxId && Lookup(s.list.items, id).None?
    ensures s.num < maxId
  {
    var all := UpTo(maxId);
    var ids := Ids(s.list.items);
    forall k | k in ids ensures k in all {
      var i :| 0 <= i < |s.list.items| && s.list.items[i].id == k;
      assert s.list.items[i] in s.list.items;
    }
    assert id !in ids;
    hide DistinctIds;
    hide Find;
    assert id in all - ids;
    assert all == ids + (all - ids);
  }

  /** Neither set nor get brings in other entries. */
  lemma {:induction false} NoOtherEntries(s: Store, maxId: int, id: int, data: Bytes)
    requires Valid(s)
    ensures forall e :: e in Get(s, id).0.list.items ==> e in s.list.items
    ensures forall e :: e in Set(s, maxId, id, data).0.list.items ==> e in s.list.items || e == Entry(id, data)
  {
    NothingElse(s.list, Entry(id, data));
    hide Appended;
    hide Unlinked;
    hide DistinctIds;
  }

  ghost function UpTo(n: int): (r: set<int>)
    ensures forall k :: k in r <==> 1 <= k <= n
    ensures n >= 0 ==> |r| == n
  {
    if n <= 0 then {} else UpTo(n - 1) + {n}
  }

  ghost function Ids(es: seq<Entry>): (r: set<int>)
    requires DistinctIds(es)
    ensures forall k :: k in r <==> exists i :: 0 <= i < |es| && es[i].id == k
    ensures |r| == |es|
  {
    if es == [] then {}
    else
      assert forall i :: 0 < i < |es| ==> es[i] == es[1..][i - 1];
      Ids(es[1..]) + {es[0].id}
  }

  // ---------- the table in place ----------

  class Buffer {
    var list: Tailed<Entry>
    var num: int

    function Value(): Store
      reads this
    {
      Store(list, num)
    }

    constructor ()
      ensures Sound(Value()) && list.items == []
    {
      list, num := Empty(), 0;
    }

    /** kBufferInit leaves the tail pointer alone; a first item resets it. */
    method Init()
      modifies this
      ensures Sound(Value()) && list.items == []
    {
      list, num := Empty(), 0;
    }

    method Search(id: int) returns (i: nat)
      ensures i == Find(list.items, id)
    {
      i := 0;
      while i < |list.items|
        invariant i <= |list.items| && forall j :: 0 <= j < i ==> list.items[j].id != id
      {
        if list.items[i].id == id {
          FirstFound(list.items, id, i);
          return;
        }
        i := i + 1;
      }
      FirstFound(list.items, id, i);
    }

    method SetLeft(maxId: int, id: int, data: Bytes) returns (ok: bool)
      requires Valid(Value())
      modifies this
      ensures (Value(), ok) == Set(old(Value()), maxId, id, data)
    {
      if num == maxId {
        return false;
      }
      var i := Search(id);
      if i < |list.items| {
        return false;
      }
      num := num + 1;
      list := Appended(list, Entry(id, data));
      ok := true;
    }

    method GetLeft(id: int) returns (data: Bytes)
      requires Valid(Value())
      modifies this
      ensures (Value(), data) == Get(old(Value()), id)
    {
      if list.items == [] || num == 0 {
        return [];
      }
      var i := Search(id);
      if i == |list.items| {
        return [];
      }
      data := list.items[i].data;
      list := Unlinked(list, i);
      num := num - 1;
    }
  }

  lemma {:induction false} FirstFound(es: seq<Entry>, id: int, i: nat)
    requires i <= |es| && (forall j :: 0 <= j < i ==> es[j].id != id) && (i < |es| ==> es[i].id == id)
    ensures Find(es, id) == i
  {
  }
}
