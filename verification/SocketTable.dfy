/** kSocket.c: the append-only socket table and g_readfds, the descriptors that select watches. */
module SocketTable {
  import MT = MessageTable

  type Kind = MT.SockType

  /** A SocketInfo; `parent` is di_parent_socketid, which a TCP listener does not have. */
  datatype Socket = Socket(id: int, handle: int, kind: Kind, alive: bool, parent: int)

  datatype Table = Table(socks: seq<Socket>, lastId: int, readfds: set<int>)

  const MAX_SOCKETS := 0x7fff

  predicate IsUnix(k: Kind) {
    k == MT.Unix || k == MT.UnixData
  }

  /** The kinds that have a DatasocketInfo. */
  predicate HasParent(k: Kind) {
    k == MT.Udp || k == MT.ListenUdp || k == MT.Data || k == MT.Raw
  }

  function AliveHandles(ss: seq<Socket>): set<int> {
    set i | 0 <= i < |ss| && ss[i].alive :: ss[i].handle
  }

  ghost predicate Ascending(ss: seq<Socket>) {
    forall i, j :: 0 <= i < j < |ss| ==> ss[i].id < ss[j].id
  }

  ghost predicate Unshared(ss: seq<Socket>) {
    forall i, j :: 0 <= i < j < |ss| && ss[i].alive && ss[j].alive ==> ss[i].handle != ss[j].handle
  }

  /** The table is safe: ids increase along it, no two living sockets share a descriptor, and select
      watches exactly the descriptors of the living ones. */
  ghost predicate Safe(t: Table) {
    && Ascending(t.socks) && |t.socks| <= t.lastId
    && (forall i :: 0 <= i < |t.socks| ==> 1 <= t.socks[i].id <= t.lastId)
    && Unshared(t.socks)
    && t.readfds == AliveHandles(t.socks)
  }

  // ---------- opening ----------

  function FindHandle(ss: seq<Socket>, handle: int): (i: nat)
    ensures i <= |ss| && (i < |ss| ==> ss[i].handle == handle)
    ensures forall j :: 0 <= j < i ==> ss[j].handle != handle
  {
    if ss == [] || ss[0].handle == handle then 0 else 1 + FindHandle(ss[1..], handle)
  }

  /** kSocketMakeSocketStatusClose: the first entry that ever had this descriptor. */
  function MadeClosed(ss: seq<Socket>, handle: int): (r: seq<Socket>)
    ensures |r| == |ss|
  {
    var i := FindHandle(ss, handle);
    if i == |ss| then ss else ss[i := ss[i].(alive := false)]
  }

  /** The end of kSocketOpen, kSocketOpenWaitSocket and kSocketOpenUnixdSocket, when the system has
      given out descriptor `handle`. The first two refuse at the id limit before that. */
  function Opened(t: Table, handle: int, kind: Kind): Table {
    Table(MadeClosed(t.socks, handle) + [Socket(t.lastId + 1, handle, kind, true, 0)], t.lastId + 1,
        t.readfds + {handle})
  }

  /** An accepted connection: kSocketRegistDataSocketInfo or kSocketRegistUnixdSocketInfo, whose result
      is not looked at, and then SELECT_IN. */
  function Accepted(t: Table, handle: int, kind: Kind, parent: int): Table {
    if t.lastId == MAX_SOCKETS then t.(readfds := t.readfds + {handle})
    else Table(t.socks + [Socket(t.lastId + 1, handle, kind, true, parent)], t.lastId + 1, t.readfds + {handle})
  }

  lemma {:induction false} MadeClosedIsAlready(ss: seq<Socket>, handle: int)
    requires handle !in AliveHandles(ss)
    ensures MadeClosed(ss, handle) == ss
  {
    var i := FindHandle(ss, handle);
    if i < |ss| {
      assert !ss[i].alive;
    }
  }

  lemma {:induction false} AppendKeeps(t: Table, s: Socket)
    requires Safe(t) && s.id == t.lastId + 1 && s.alive && s.handle !in t.readfds
    ensures Safe(Table(t.socks + [s], t.lastId + 1, t.readfds + {s.handle}))
  {
    var ss := t.socks + [s];
    forall h ensures h in AliveHandles(ss) <==> h in t.readfds + {s.handle} {
      if h in AliveHandles(t.socks) {
        var i :| 0 <= i < |t.socks| && t.socks[i].alive && t.socks[i].handle == h;
        assert ss[i] == t.socks[i];
      }
      assert ss[|t.socks|] == s;
    }
    forall i | 0 <= i < |t.socks| && t.socks[i].alive ensures t.socks[i].handle != s.handle {
      assert t.socks[i].handle in AliveHandles(t.socks);
    }
  }

  lemma {:induction false} OpenKeeps(t: Table, handle: int, kind: Kind)
    requires Safe(t) && handle !in t.readfds
    ensures Safe(Opened(t, handle, kind))
  {
    MadeClosedIsAlready(t.socks, handle);
    AppendKeeps(t, Socket(t.lastId + 1, handle, kind, true, 0));
  }

  lemma {:induction false} LivingHandle(t: Table, i: int)
    requires Safe(t) && 0 <= i < |t.socks| && t.socks[i].alive
    ensures t.socks[i].handle in t.readfds
  {
  }

  /** Opening on a descriptor that a living socket has: if that is the first entry that ever had the
      descriptor, it is closed; otherwise two living sockets share it. */
  lemma {:induction false} ReopenKeepsIff(t: Table, handle: int, kind: Kind, i: int)
    requires Safe(t) && 0 <= i < |t.socks| && t.socks[i].alive && t.socks[i].handle == handle
    ensures Safe(Opened(t, handle, kind)) <==> forall j :: 0 <= j < i ==> t.socks[j].handle != handle
  {
    hide AliveHandles;
    var f := FindHandle(t.socks, handle);
    if f == i {
      LivingHandle(t, i);
      ShutKeeps(t, i);
      AppendKeeps(Shut(t, i), Socket(t.lastId + 1, handle, kind, true, 0));
      assert t.readfds - {handle} + {handle} == t.readfds;
      assert t.readfds + {handle} == t.readfds;
    } else {
      assert !t.socks[f].alive;
      var ss := Opened(t, handle, kind).socks;
      assert ss[i] == t.socks[i] && ss[|t.socks|].handle == handle;
    }
  }

  /** An old closed entry and a living socket with the same descriptor: it is the old entry that is closed
      again. */
  lemma {:induction false} OldEntryIsMarked(kind: Kind)
    ensures var t := Table([Socket(1, 4, MT.Udp, false, 0), Socket(2, 4, MT.Udp, true, 0)], 2, {4});
      Safe(t) && Opened(t, 4, kind).socks[..2] == t.socks && !Safe(Opened(t, 4, kind))
  {
    var ss := [Socket(1, 4, MT.Udp, false, 0), Socket(2, 4, MT.Udp, true, 0)];
    assert ss[1].handle in AliveHandles(ss);
    assert AliveHandles(ss) == {4};
    ReopenKeepsIff(Table(ss, 2, {4}), 4, kind, 1);
  }

  /** Accepting a new descriptor keeps the table safe exactly when the id limit has not been reached. */
  lemma {:induction false} AcceptKeepsIff(t: Table, handle: int, kind: Kind, parent: int)
    requires Safe(t) && handle !in t.readfds
    ensures Safe(Accepted(t, handle, kind, parent)) <==> t.lastId != 0x7fff
  {
    if t.lastId != MAX_SOCKETS {
      AppendKeeps(t, Socket(t.lastId + 1, handle, kind, true, parent));
    } else {
      assert handle in Accepted(t, handle, kind, parent).readfds;
    }
  }

  // ---------- closing ----------

  function FindId(ss: seq<Socket>, id: int): (i: nat)
    ensures i <= |ss| && (i < |ss| ==> ss[i].id == id)
    ensures forall j :: 0 <= j < i ==> ss[j].id != id
  {
    if ss == [] || ss[0].id == id then 0 else 1 + FindId(ss[1..], id)
  }

  lemma {:induction false} FirstId(ss: seq<Socket>, id: int, i: nat)
    requires i <= |ss| && (forall j :: 0 <= j < i ==> ss[j].id != id) && (i < |ss| ==> ss[i].id == id)
    ensures FindId(ss, id) == i
  {
  }

  /** What the DatasocketInfo on the stack says when socket i is judged: what it said before (at first
      anything) unless the socket has one itself. */
  function Seen(ss: seq<Socket>, i: int, garbage: int): int
    requires i < |ss|
  {
    if i < 0 then garbage
    else if ss[i].alive && HasParent(ss[i].kind) then ss[i].parent
    else Seen(ss, i - 1, garbage)
  }

  /** Whether kSocketClose(id) means to close socket i: for 0 any; for a TCP listener itself, any TCP
      connection, and what has it as its parent as far as it is Seen; otherwise only itself. */
  predicate Meant(ss: seq<Socket>, id: int, i: int, garbage: int)
    requires 0 <= i < |ss|
  {
    var listener := FindId(ss, id) < |ss| && ss[FindId(ss, id)].kind == MT.ListenTcp;
    if id == 0 then !IsUnix(ss[i].kind)
    else if listener then
      !IsUnix(ss[i].kind) && (ss[i].id == id || ss[i].kind == MT.Data || Seen(ss, i, garbage) == id)
    else ss[i].id == id && ss[i].kind != MT.Unix
  }

  /** Socket i after kSocketClose(id); `bad` are the descriptors for which close fails. */
  function After(ss: seq<Socket>, id: int, garbage: int, bad: set<int>, i: int): Socket
    requires 0 <= i < |ss|
  {
    if ss[i].alive && ss[i].handle !in bad && Meant(ss, id, i, garbage) then ss[i].(alive := false) else ss[i]
  }

  function AllAfter(ss: seq<Socket>, id: int, garbage: int, bad: set<int>): (r: seq<Socket>)
    ensures |r| == |ss| && forall i :: 0 <= i < |ss| ==> r[i] == After(ss, id, garbage, bad, i)
  {
    seq(|ss|, i requires 0 <= i < |ss| => After(ss, id, garbage, bad, i))
  }

  /** One living socket closed and taken out of select's set. */
  function Shut(t: Table, i: int): Table
    requires 0 <= i < |t.socks|
  {
    Table(t.socks[i := t.socks[i].(alive := false)], t.lastId, t.readfds - {t.socks[i].handle})
  }

  lemma {:induction false} ShutKeeps(t: Table, i: int)
    requires Safe(t) && 0 <= i < |t.socks| && t.socks[i].alive
    ensures Safe(Shut(t, i))
  {
    var r := Shut(t, i);
    forall h ensures h in r.readfds <==> h in AliveHandles(r.socks) {
      if h in r.readfds {
        var j :| 0 <= j < |t.socks| && t.socks[j].alive && t.socks[j].handle == h;
        assert r.socks[j].alive;
      }
      if h in AliveHandles(r.socks) {
        var j :| 0 <= j < |r.socks| && r.socks[j].alive && r.socks[j].handle == h;
        assert t.socks[j].alive && t.socks[i].alive;
      }
    }
  }

  /** What kSocketClose returns. */
  predicate CloseOk(ss: seq<Socket>, id: int, bad: set<int>) {
    var i := FindId(ss, id);
    if id == 0 then ss != []
    else if id < 0 || i == |ss| then false
    else ss[i].kind == MT.ListenTcp || (ss[i].kind != MT.Unix && ss[i].alive && ss[i].handle !in bad)
  }

  // ---------- the table in place ----------

  class SocketList {
    var socks: seq<Socket>
    var lastId: int
    var readfds: set<int>

    function Value(): Table
      reads this
    {
      Table(socks, lastId, readfds)
    }

    constructor ()
      ensures Safe(Value()) && socks == []
    {
      socks, lastId, readfds := [], 0, {};
    }

    method MakeStatusClose(handle: int)
      modifies this`socks
      ensures socks == MadeClosed(old(socks), handle)
    {
      var i := 0;
      while i < |socks| && socks[i].handle != handle
        invariant 0 <= i <= |socks| && forall j :: 0 <= j < i ==> socks[j].handle != handle
      {
        i := i + 1;
      }
      FirstHandle(socks, handle, i);
      if i < |socks| {
        socks := socks[i := socks[i].(alive := false)];
      }
    }

    /** The system has given out descriptor `handle`. */
    method Open(handle: int, kind: Kind)
      modifies this
      ensures Value() == Opened(old(Value()), handle, kind)
    {
      MakeStatusClose(handle);
      readfds := readfds + {handle};
      lastId := lastId + 1;
      socks := socks + [Socket(lastId, handle, kind, true, 0)];
    }

    method Accept(handle: int, kind: Kind, parent: int)
      modifies this
      ensures Value() == Accepted(old(Value()), handle, kind, parent)
    {
      if lastId != MAX_SOCKETS {
        lastId := lastId + 1;
        socks := socks + [Socket(lastId, handle, kind, true, parent)];
      }
      readfds := readfds + {handle};
    }

    method Find(id: int) returns (i: nat)
      ensures i == FindId(socks, id)
    {
      i := 0;
      while i < |socks| && socks[i].id != id
        invariant i <= |socks| && forall j :: 0 <= j < i ==> socks[j].id != id
      {
        i := i + 1;
      }
      FirstId(socks, id, i);
    }

    method ShutAt(i: nat)
      requires i < |socks| && socks[i].alive && Safe(Value())
      modifies this
      ensures Value() == Shut(old(Value()), i) && Safe(Value())
    {
      ShutKeeps(Value(), i);
      readfds := readfds - {socks[i].handle};
      socks := socks[i := socks[i].(alive := false)];
    }

    /** kSocketClose. */
    method Close(id: int, garbage: int, bad: set<int>) returns (ok: bool)
      requires Safe(Value())
      modifies this
      ensures Value() == Closed(old(Value()), id, garbage, bad) && Safe(Value())
      ensures ok == CloseOk(old(socks), id, bad)
    {
      CloseKeeps(Value(), id, garbage, bad);
      if id < 0 {
        return false;
      }
      var k := Find(id);
      if socks == [] || (id != 0 && k == |socks|) {
        return false;
      }
      if id == 0 {
        CloseAll(garbage, bad);
        return true;
      }
      if socks[k].kind == MT.ListenTcp {
        CloseListener(id, garbage, bad);
        return true;
      }
      ok := CloseSingle(id, garbage, bad);
    }

    method CloseAll(garbage: int, bad: set<int>)
      requires Safe(Value())
      modifies this
      ensures Safe(Value()) && lastId == old(lastId)
      ensures socks == AllAfter(old(socks), 0, garbage, bad)
    {
      ghost var was := socks;
      var i := 0;
      while i < |socks|
        invariant Safe(Value()) && lastId == old(lastId) && i <= |socks| == |was|
        invariant forall j :: 0 <= j < |was| ==> socks[j] == if j < i then After(was, 0, garbage, bad, j) else was[j]
      {
        if socks[i].alive && !IsUnix(socks[i].kind) && socks[i].handle !in bad {
          ShutAt(i);
        }
        i := i + 1;
      }
    }

    /** One round of the loop for a listener; `parent` is what the DatasocketInfo on the stack says. */
    method CloseIfMeant(i: nat, id: int, parent: int, bad: set<int>) returns (parent': int)
      requires Safe(Value()) && i < |socks|
      modifies this
      ensures Safe(Value())
      ensures var s := old(socks[i]);
        && parent' == (if s.alive && HasParent(s.kind) then s.parent else parent)
        && Value() ==
          if s.alive && s.handle !in bad && !IsUnix(s.kind) && (s.id == id || s.kind == MT.Data || parent' == id)
          then Shut(old(Value()), i) else old(Value())
    {
      hide Safe;
      parent' := parent;
      if socks[i].alive && !IsUnix(socks[i].kind) {
        if HasParent(socks[i].kind) {
          parent' := socks[i].parent;
        }
        if (socks[i].id == id || socks[i].kind == MT.Data || parent' == id) && socks[i].handle !in bad {
          ShutAt(i);
        }
      }
    }

    method CloseListener(id: int, garbage: int, bad: set<int>)
      requires Safe(Value()) && id > 0 && FindId(socks, id) < |socks| && socks[FindId(socks, id)].kind == MT.ListenTcp
      modifies this
      ensures Safe(Value()) && lastId == old(lastId)
      ensures socks == AllAfter(old(socks), id, garbage, bad)
    {
      assert |socks| <= lastId;
      hide Safe;
      hide FindId;
      ghost var was := socks;
      var i, parent := 0, garbage;
      while i < lastId && i < |socks|
        invariant Safe(Value()) && lastId == old(lastId) && 0 <= i <= |socks| == |was|
        invariant i > 0 ==> parent == Seen(was, i - 1, garbage)
        invariant i == 0 ==> parent == garbage
        invariant forall j :: 0 <= j < |was| ==> socks[j] == if j < i then After(was, id, garbage, bad, j) else was[j]
      {
        parent := CloseIfMeant(i, id, parent, bad);
        assert parent == Seen(was, i, garbage);
        i := i + 1;
      }
    }

    method CloseSingle(id: int, garbage: int, bad: set<int>) returns (ok: bool)
      requires Safe(Value()) && id > 0 && FindId(socks, id) < |socks| && socks[FindId(socks, id)].kind != MT.ListenTcp
      modifies this
      ensures Safe(Value()) && lastId == old(lastId)
      ensures socks == AllAfter(old(socks), id, garbage, bad) && ok == CloseOk(old(socks), id, bad)
    {
      var i := Find(id);
      if socks[i].kind == MT.Unix || !socks[i].alive || socks[i].handle in bad {
        return false;
      }
      ShutAt(i);
      ok := true;
    }
  }

  lemma {:induction false} FirstHandle(ss: seq<Socket>, handle: int, i: nat)
    requires i <= |ss| && (forall j :: 0 <= j < i ==> ss[j].handle != handle) && (i < |ss| ==> ss[i].handle == handle)
    ensures FindHandle(ss, handle) == i
  {
  }

  // ---------- runs ----------

  /** The table after kSocketClose. */
  ghost function Closed(t: Table, id: int, garbage: int, bad: set<int>): Table {
    var ss := AllAfter(t.socks, id, garbage, bad);
    Table(ss, t.lastId, t.readfds - set i | 0 <= i < |ss| && t.socks[i].alive && !ss[i].alive :: ss[i].handle)
  }

  ghost predicate OnlyCloses(ss: seq<Socket>, ss': seq<Socket>) {
    |ss'| == |ss| && forall i :: 0 <= i < |ss| ==> ss'[i] == ss[i] || ss'[i] == ss[i].(alive := false)
  }

  lemma {:induction false} WatchedAfter(t: Table, ss: seq<Socket>, h: int)
    requires Safe(t) && OnlyCloses(t.socks, ss)
    ensures h in AliveHandles(ss) <==>
      h in t.readfds - set i | 0 <= i < |ss| && t.socks[i].alive && !ss[i].alive :: ss[i].handle
  {
    if h in t.readfds {
      var i :| 0 <= i < |t.socks| && t.socks[i].alive && t.socks[i].handle == h;
      assert ss[i].handle == h;
    }
    if h in AliveHandles(ss) {
      var i :| 0 <= i < |ss| && ss[i].alive && ss[i].handle == h;
      assert t.socks[i].alive;
    }
  }

  lemma {:induction false} CloseKeeps(t: Table, id: int, garbage: int, bad: set<int>)
    requires Safe(t)
    ensures Safe(Closed(t, id, garbage, bad))
  {
    var ss := AllAfter(t.socks, id, garbage, bad);
    assert OnlyCloses(t.socks, ss);
    hide After;
    forall h ensures h in Closed(t, id, garbage, bad).readfds <==> h in AliveHandles(ss) {
      WatchedAfter(t, ss, h);
    }
  }

  // ---------- what closing does to the table, read off its fields ----------

  lemma {:induction false} ClosedWatches(t: Table, id: int, garbage: int, bad: set<int>)
    requires Safe(t)
    ensures Closed(t, id, garbage, bad).readfds == AliveHandles(Closed(t, id, garbage, bad).socks)
  {
    CloseKeeps(t, id, garbage, bad);
  }

  /** Closing a socket that is no TCP listener closes it and nothing else, if it is alive, not a UNIX one,
      and the system's close succeeds; otherwise it fails and nothing changes. */
  lemma {:induction false} CloseOne(t: Table, id: int, garbage: int, bad: set<int>, l: int)
    requires Safe(t) && 0 <= l < |t.socks| && t.socks[l].id == id && t.socks[l].kind != MT.ListenTcp
    ensures var s, n := t.socks[l], Closed(t, id, garbage, bad);
      if s.alive && s.kind != MT.Unix && s.handle !in bad then
        && n == Table(t.socks[l := s.(alive := false)], t.lastId, t.readfds - {s.handle})
        && CloseOk(t.socks, id, bad)
      else n == t && !CloseOk(t.socks, id, bad)
  {
    FirstId(t.socks, id, l);
    var s, n := t.socks[l], Closed(t, id, garbage, bad);
    var closes := s.alive && s.kind != MT.Unix && s.handle !in bad;
    forall i | 0 <= i < |t.socks|
      ensures n.socks[i] == if closes && i == l then s.(alive := false) else t.socks[i]
    {
    }
    assert n.socks == if closes then t.socks[l := s.(alive := false)] else t.socks;
  }

  /** Closing everything closes exactly the living sockets that are no UNIX ones and whose close succeeds. */
  lemma {:induction false} CloseEverything(t: Table, garbage: int, bad: set<int>)
    requires Safe(t)
    ensures var n := Closed(t, 0, garbage, bad);
      && |n.socks| == |t.socks| && n.lastId == t.lastId && (CloseOk(t.socks, 0, bad) <==> t.socks != [])
      && (forall i :: 0 <= i < |t.socks| ==> var s := t.socks[i];
            n.socks[i] == if s.alive && s.kind !in {MT.Unix, MT.UnixData} && s.handle !in bad
                          then s.(alive := false) else s)
      && (forall h :: h in n.readfds <==> exists i :: 0 <= i < |t.socks| && n.socks[i].alive && n.socks[i].handle == h)
  {
    ClosedWatches(t, 0, garbage, bad);
  }

  /** Closing an id that no socket has fails and changes nothing. */
  lemma {:induction false} CloseUnknown(t: Table, id: int, garbage: int, bad: set<int>)
    requires Safe(t) && id != 0 && forall i :: 0 <= i < |t.socks| ==> t.socks[i].id != id
    ensures Closed(t, id, garbage, bad) == t && !CloseOk(t.socks, id, bad)
  {
    FirstId(t.socks, id, |t.socks|);
    assert Closed(t, id, garbage, bad).socks == t.socks;
  }

  /** The last living socket before socket i that has a parent has p as its parent; without one, p is what
      the stack held. */
  ghost predicate JudgedBy(ss: seq<Socket>, i: int, p: int, garbage: int)
    requires 0 <= i <= |ss|
  {
    || (p == garbage && forall k :: 0 <= k < i ==> !(ss[k].alive && HasParent(ss[k].kind)))
    || exists j :: 0 <= j < i && ss[j].alive && HasParent(ss[j].kind) && ss[j].parent == p
         && forall k :: j < k < i ==> !(ss[k].alive && HasParent(ss[k].kind))
  }

  lemma {:induction false} SeenIsJudgement(ss: seq<Socket>, i: int, p: int, garbage: int)
    requires 0 <= i <= |ss|
    ensures Seen(ss, i - 1, garbage) == p <==> JudgedBy(ss, i, p, garbage)
  {
    if i > 0 {
      SeenIsJudgement(ss, i - 1, p, garbage);
      hide HasParent;
      if ss[i - 1].alive && HasParent(ss[i - 1].kind) {
        assert JudgedBy(ss, i, ss[i - 1].parent, garbage);
      }
    }
  }

  // ---------- what closing a listener closes ----------

  lemma {:induction false} KindsWithParent(k: Kind)
    ensures HasParent(k) <==> k !in {MT.Unix, MT.UnixData, MT.ListenTcp}
    ensures k in {MT.Udp, MT.ListenUdp, MT.Raw} <==> HasParent(k) && k != MT.Data
  {
    match k
    case _ =>
  }

  /** Exactly which sockets go when a TCP listener is closed: it always succeeds, and of the living sockets
      that are no UNIX ones and whose close succeeds it closes the listener, every TCP connection, what
      the listener is the parent of, and other TCP listeners by what the stack says when they are judged. */
  lemma {:induction false} CloseListenerExactly(t: Table, id: int, garbage: int, bad: set<int>, l: int, i: int)
    requires Safe(t) && 0 <= l < |t.socks| && t.socks[l].id == id && t.socks[l].kind == MT.ListenTcp
    requires 0 <= i < |t.socks|
    ensures var s, n := t.socks[i], Closed(t, id, garbage, bad);
      && CloseOk(t.socks, id, bad) && |n.socks| == |t.socks| && n.lastId == t.lastId
      && n.readfds == AliveHandles(n.socks)
      && n.socks[i] ==
        if && s.alive && s.handle !in bad && s.kind !in {MT.Unix, MT.UnixData}
           && (s.id == id || s.kind == MT.Data || (s.kind in {MT.Udp, MT.ListenUdp, MT.Raw} && s.parent == id)
               || (s.kind == MT.ListenTcp && JudgedBy(t.socks, i, id, garbage)))
        then s.(alive := false) else s
  {
    FirstId(t.socks, id, l);
    ClosedWatches(t, id, garbage, bad);
    SeenIsJudgement(t.socks, i, id, garbage);
    assert id > 0;
    KindsWithParent(t.socks[i].kind);
    hide JudgedBy;
    hide Safe;
    hide AliveHandles;
  }

  /** Closing a listener is meant for itself and its connections. */
  predicate Rightly(s: Socket, id: int) {
    s.id == id || (HasParent(s.kind) && s.parent == id)
  }

  /** Neither a listener that is closed nor any connection it accepted is alive afterwards, unless the
      system failed to close it. */
  lemma {:induction false} ListenerIsGone(t: Table, id: int, garbage: int, bad: set<int>, l: int)
    requires Safe(t) && 0 <= l < |t.socks| && t.socks[l].id == id && t.socks[l].kind == MT.ListenTcp
    ensures var n := Closed(t, id, garbage, bad);
      forall i :: 0 <= i < |t.socks| ==> n.socks[i].alive ==> Rightly(t.socks[i], id) ==> t.socks[i].handle in bad
  {
    forall i | 0 <= i < |t.socks|
      ensures Closed(t, id, garbage, bad).socks[i].alive ==> Rightly(t.socks[i], id) ==> t.socks[i].handle in bad
    {
      CloseListenerExactly(t, id, garbage, bad, l, i);
      hide Closed;
      hide Safe;
    }
  }

  /** It closes nothing else exactly when, among the living sockets whose close succeeds, every TCP
      connection is its own and no other TCP listener is judged by a connection of its own. */
  lemma {:induction false} ClosesRightlyIff(t: Table, id: int, garbage: int, bad: set<int>, l: int)
    requires Safe(t) && 0 <= l < |t.socks| && t.socks[l].id == id && t.socks[l].kind == MT.ListenTcp
    ensures var n := Closed(t, id, garbage, bad);
      (forall i :: 0 <= i < |t.socks| ==> t.socks[i].alive && !n.socks[i].alive ==> Rightly(t.socks[i], id))
      <==> (forall i :: 0 <= i < |t.socks| ==> t.socks[i].alive && t.socks[i].handle !in bad && t.socks[i].id != id ==>
              && (t.socks[i].kind == MT.Data ==> t.socks[i].parent == id)
              && (t.socks[i].kind == MT.ListenTcp ==> !JudgedBy(t.socks, i, id, garbage)))
  {
    var n := Closed(t, id, garbage, bad);
    forall i | 0 <= i < |t.socks|
      ensures (t.socks[i].alive && !n.socks[i].alive ==> Rightly(t.socks[i], id)) <==>
        (t.socks[i].alive && t.socks[i].handle !in bad && t.socks[i].id != id ==>
           && (t.socks[i].kind == MT.Data ==> t.socks[i].parent == id)
           && (t.socks[i].kind == MT.ListenTcp ==> !JudgedBy(t.socks, i, id, garbage)))
    {
      CloseListenerExactly(t, id, garbage, bad, l, i);
      hide Closed;
      hide Safe;
      hide JudgedBy;
    }
  }

  const LISTENER1 := Socket(1, 4, MT.ListenTcp, true, 0)
  const LISTENER2 := Socket(2, 5, MT.ListenTcp, true, 0)
  const OF_LISTENER2 := Socket(3, 6, MT.Data, true, 2)
  const OF_LISTENER1 := Socket(4, 7, MT.Data, true, 1)
  const LISTENER3 := Socket(5, 8, MT.ListenTcp, true, 0)
  const CROWD := [LISTENER1, LISTENER2, OF_LISTENER2, OF_LISTENER1, LISTENER3]

  /** Three listeners, and a connection of each of the first two. Closing the first listener closes the
      second one's connection, and the third listener, which was opened after a connection of the first. */
  lemma {:induction false} BystandersAreClosed(garbage: int)
    ensures Safe(Table(CROWD, 5, AliveHandles(CROWD)))
    ensures var n := Closed(Table(CROWD, 5, AliveHandles(CROWD)), 1, garbage, {});
      && !n.socks[2].alive && !Rightly(OF_LISTENER2, 1)
      && !n.socks[4].alive && !Rightly(LISTENER3, 1)
  {
    FirstId(CROWD, 1, 0);
    assert Seen(CROWD, 3, garbage) == 1;
  }

  // ---------- whose messages a listener is given ----------

  /** The socket table as the message table asks for it. */
  function Socks(t: Table): MT.Socks {
    map id | id in IdsIn(t.socks) :: var s := t.socks[FindId(t.socks, id)]; MT.Sock(s.kind, s.alive, s.parent)
  }

  function IdsIn(ss: seq<Socket>): (ids: set<int>)
    ensures forall id :: id in ids ==> FindId(ss, id) < |ss|
  {
    set id, i | 0 <= i < |ss| && id == ss[i].id && FindId(ss, id) < |ss| :: id
  }

  lemma {:induction false} SocksAt(t: Table, i: int)
    requires Safe(t) && 0 <= i < |t.socks|
    ensures var s := t.socks[i]; s.id in Socks(t) && Socks(t)[s.id] == MT.Sock(s.kind, s.alive, s.parent)
  {
    FirstId(t.socks, t.socks[i].id, i);
  }

  /** A message received on a TCP connection is for requests of the connection, and for those of a listener
      exactly if the connection is alive and the listener its parent. */
  lemma {:induction false} ServesListenerIff(t: Table, l: int, c: int, m: MT.Msg)
    requires Safe(t) && 0 <= l < |t.socks| && t.socks[l].kind == MT.ListenTcp
    requires 0 <= c < |t.socks| && t.socks[c].kind == MT.Data && m.received && m.sid == t.socks[c].id
    ensures MT.Belongs(Socks(t), m.sid, m)
    ensures MT.Belongs(Socks(t), t.socks[l].id, m) <==> t.socks[c].alive && t.socks[c].parent == t.socks[l].id
  {
    hide Socks;
    SocksAt(t, l);
    SocksAt(t, c);
  }

  /** So a connection's messages go to the listener that accepted it, until the connection is closed. */
  lemma {:induction false} AcceptedServesListener(t: Table, l: int, handle: int, m: MT.Msg, garbage: int)
    requires Safe(t) && 0 <= l < |t.socks| && t.socks[l].kind == MT.ListenTcp
    requires handle !in t.readfds && t.lastId != MAX_SOCKETS && m.received && m.sid == t.lastId + 1
    ensures var t' := Accepted(t, handle, MT.Data, t.socks[l].id);
      var t'' := Closed(t', m.sid, garbage, {});
      && MT.Belongs(Socks(t'), m.sid, m) && MT.Belongs(Socks(t'), t.socks[l].id, m)
      && MT.Belongs(Socks(t''), m.sid, m) && !MT.Belongs(Socks(t''), t.socks[l].id, m)
  {
    hide Safe;
    hide Closed;
    hide MT.Belongs;
    hide Socks;
    hide CloseOk;
    var id := t.socks[l].id;
    var t' := Accepted(t, handle, MT.Data, id);
    AcceptKeepsIff(t, handle, MT.Data, id);
    CloseOne(t', m.sid, garbage, {}, |t.socks|);
    CloseKeeps(t', m.sid, garbage, {});
    ServesListenerIff(t', l, |t.socks|, m);
    ServesListenerIff(Closed(t', m.sid, garbage, {}), l, |t.socks|, m);
  }

  datatype Event =
    | Opens(handle: int, kind: Kind)
    | Accepts(handle: int, kind: Kind, parent: int)
    | Closes(id: int, garbage: int, bad: set<int>)

  ghost function Next(t: Table, e: Event): Table {
    match e
    case Opens(handle, kind) => Opened(t, handle, kind)
    case Accepts(handle, kind, parent) => Accepted(t, handle, kind, parent)
    case Closes(id, garbage, bad) => Closed(t, id, garbage, bad)
  }

  ghost function Run(evs: seq<Event>): Table {
    if evs == [] then Table([], 0, {}) else Next(Run(evs[..|evs| - 1]), evs[|evs| - 1])
  }

  /** The system gives out no descriptor that is in use. */
  ghost predicate Fresh(evs: seq<Event>) {
    forall i :: 0 <= i < |evs| ==>
      var t := Run(evs[..i]);
      evs[i].Closes? || evs[i].handle !in AliveHandles(t.socks) + t.readfds
  }

  /** No connection is accepted at the id limit. */
  ghost predicate NeverAtLimit(evs: seq<Event>) {
    forall i :: 0 <= i < |evs| ==> evs[i].Accepts? ==> Run(evs[..i]).lastId != MAX_SOCKETS
  }

  ghost predicate SafeThroughout(evs: seq<Event>) {
    forall n :: 0 <= n <= |evs| ==> Safe(Run(evs[..n]))
  }

  /** Over every run, whichever of the system's closes fail: the table is safe after every event exactly
      when no connection is accepted at the id limit. */
  lemma {:induction false} RunKeepsSafeIff(evs: seq<Event>)
    requires Fresh(evs)
    ensures SafeThroughout(evs) <==> NeverAtLimit(evs)
  {
    hide Run;
    hide Safe;
    if evs == [] {
      NothingIsSafe(evs);
    } else {
      var n := |evs| - 1;
      assert evs[..n + 1] == evs;
      assert forall i :: 0 <= i <= n ==> evs[..n][..i] == evs[..i];
      assert forall i :: 0 <= i < n ==> evs[..n][i] == evs[i];
      RunKeepsSafeIff(evs[..n]);
      if SafeThroughout(evs[..n]) {
        EventKeepsSafeIff(evs);
      }
    }
  }

  lemma {:induction false} NothingIsSafe(evs: seq<Event>)
    ensures Safe(Run(evs[..0]))
  {
  }

  lemma {:induction false} EventKeepsSafeIff(evs: seq<Event>)
    requires evs != [] && Fresh(evs) && Safe(Run(evs[..|evs| - 1]))
    ensures var n := |evs| - 1;
      Safe(Run(evs)) <==> (evs[n].Accepts? ==> Run(evs[..n]).lastId != MAX_SOCKETS)
  {
    var n := |evs| - 1;
    var t := Run(evs[..n]);
    assert evs[n].Closes? || evs[n].handle !in t.readfds;
    hide Safe;
    hide Closed;
    match evs[n]
    case Opens(handle, kind) => OpenKeeps(t, handle, kind);
    case Accepts(handle, kind, parent) => AcceptKeepsIff(t, handle, kind, parent);
    case Closes(id, garbage, bad) => CloseKeeps(t, id, garbage, bad);
  }

  /** A connection accepted at the limit: select watches a descriptor that no socket has. */
  lemma {:induction false} UnregisteredIsWatched(handle: int, kind: Kind, parent: int)
    ensures var t := Accepted(Table([], MAX_SOCKETS, {}), handle, kind, parent);
      Safe(Table([], MAX_SOCKETS, {})) && t.socks == [] && handle in t.readfds && !Safe(t)
  {
    assert AliveHandles([]) == {};
    AcceptKeepsIff(Table([], MAX_SOCKETS, {}), handle, kind, parent);
  }
}
