/** kData.c: the table of the messages sent and received. */
module MessageTable {
  import opened Wrappers
  import opened TailList

  datatype SockType = Unix | UnixData | Udp | Data | ListenUdp | ListenTcp | Raw

  /** What the table asks of the socket table (SocketInfo, DatasocketInfo). */
  datatype Sock = Sock(kind: SockType, alive: bool, parent: int)
  type Socks = map<int, Sock>

  /** A message: received or sent, not yet read or read. */
  datatype Msg = Msg(id: int, sid: int, received: bool, unread: bool, data: Bytes)

  /** The list and g_msg_dataid, the last id given out. */
  datatype Table = Table(list: Tailed<Msg>, lastId: int)

  /** A fetch: a negative, a positive or a zero return value. */
  datatype Fetch = Bad | Nothing | Found(msg: Msg)

  const MAX_MSGS := 0x7fffffff

  ghost predicate Increasing(ms: seq<Msg>) {
    forall i, j :: 0 <= i < j < |ms| ==> ms[i].id < ms[j].id
  }

  /** Ids strictly increase along the list and none exceeds the counter. */
  ghost predicate Valid(t: Table) {
    && Linked(t.list) && Increasing(t.list.items) && 0 <= t.lastId
    && (forall i :: 0 <= i < |t.list.items| ==> 0 < t.list.items[i].id <= t.lastId)
  }

  /** Whether kDataRegist takes a message of socket sid. */
  predicate Registers(socks: Socks, sid: int) {
    sid in socks && socks[sid].kind in {Udp, Data, Raw}
  }

  function Regist(t: Table, socks: Socks, sid: int, received: bool, data: Bytes): (r: (Table, bool))
    requires Valid(t)
    ensures Valid(r.0)
  {
    if t.lastId == MAX_MSGS || !Registers(socks, sid) then (t, false)
    else (Table(Appended(t.list, Msg(t.lastId + 1, sid, received, true, data)), t.lastId + 1), true)
  }

  /** Whether a fetch by socket sid is an error, provided there are messages at all. */
  predicate Refused(socks: Socks, sid: int) {
    sid < 0 || (sid > 0 && (sid !in socks || socks[sid].kind in {Unix, UnixData}))
  }

  /** Whether message m answers a fetch by socket sid: its own socket; for a listening socket, a living
      socket that it is the parent of; for 0, any. */
  predicate Wants(socks: Socks, sid: int, m: Msg)
    requires !Refused(socks, sid)
  {
    && m.received && m.unread
    && (sid > 0 ==>
      if socks[sid].kind in {Udp, Data, Raw} then m.sid == sid
      else m.sid in socks && socks[m.sid].kind in {Data, Udp} && socks[m.sid].alive && socks[m.sid].parent == sid)
  }

  /** The oldest message that answers, or |ms|. */
  function Oldest(ms: seq<Msg>, socks: Socks, sid: int): (i: nat)
    requires !Refused(socks, sid)
    ensures i <= |ms| && (i < |ms| ==> Wants(socks, sid, ms[i]))
    ensures forall j :: 0 <= j < i ==> !Wants(socks, sid, ms[j])
  {
    if ms == [] || Wants(socks, sid, ms[0]) then 0 else 1 + Oldest(ms[1..], socks, sid)
  }

  function Marked(t: Table, i: nat): (r: Table)
    requires i < |t.list.items|
    ensures Valid(t) ==> Valid(r)
  {
    t.(list := t.list.(items := t.list.items[i := t.list.items[i].(unread := false)]))
  }

  /** kDataGetDataBySocketid. */
  function Get(t: Table, socks: Socks, sid: int): (r: (Table, Fetch))
    requires Valid(t)
    ensures Valid(r.0)
  {
    if t.list.items == [] then (t, Nothing)
    else if Refused(socks, sid) then (t, Bad)
    else
      var i := Oldest(t.list.items, socks, sid);
      if i == |t.list.items| then (t, Nothing)
      else (Marked(t, i), Found(Marked(t, i).list.items[i]))
  }

  /** The request of kDataClear. */
  datatype Flush = Flush(sidFlag: int, idFlag: int, sid: int, id: int)

  predicate Doomed(f: Flush, m: Msg) {
    (f.idFlag == 1 && m.id == f.id) || (f.sidFlag == 1 && m.sid == f.sid)
  }

  function Kept(ms: seq<Msg>, f: Flush): (r: seq<Msg>)
    ensures |r| <= |ms|
  {
    if ms == [] then []
    else
      var n := |ms| - 1;
      Kept(ms[..n], f) + if Doomed(f, ms[n]) then [] else [ms[n]]
  }

  /** The tail pointer is not moved: it stays on its item, or on what is no longer in the list. */
  function Purged(l: Tailed<Msg>, f: Flush): (r: Tailed<Msg>)
    requires Linked(l)
  {
    Tailed(Kept(l.items, f),
           if l.last >= 0 && !Doomed(f, l.items[l.last]) then |Kept(l.items[..l.last], f)| else -1)
  }

  predicate IsFlushAll(f: Flush) {
    f == Flush(0, 0, 0, 0)
  }

  /** kDataClear. An empty table is left as it is, even by a flush of everything. */
  function Clear(t: Table, f: Flush): (r: (Table, bool))
    requires Valid(t)
    ensures Valid(r.0)
  {
    KeptIsValid(t.list, f);
    if t.list.items == [] then (t, true)
    else if IsFlushAll(f) then (Table(Empty(), 0), true)
    else if f.sidFlag == 0 && f.idFlag == 0 then (t, false)
    else (t.(list := Purged(t.list, f)), true)
  }

  // ---------- clearing is a filter ----------

  lemma {:induction false} KeptConcat(a: seq<Msg>, b: seq<Msg>, f: Flush)
    ensures Kept(a + b, f) == Kept(a, f) + Kept(b, f)
  {
    if b == [] {
      assert a + b == a;
    } else {
      var n := |b| - 1;
      assert (a + b)[..|a| + n] == a + b[..n] && (a + b)[|a| + n] == b[n];
      KeptConcat(a, b[..n], f);
    }
  }

  /** The place of a kept message among those kept. */
  lemma {:induction false} KeptAt(ms: seq<Msg>, f: Flush, i: nat)
    requires i < |ms| && !Doomed(f, ms[i])
    ensures |Kept(ms[..i], f)| < |Kept(ms, f)| && Kept(ms, f)[|Kept(ms[..i], f)|] == ms[i]
  {
    assert ms == ms[..i] + [ms[i]] + ms[i + 1..];
    KeptConcat(ms[..i] + [ms[i]], ms[i + 1..], f);
    KeptConcat(ms[..i], [ms[i]], f);
    assert [ms[i]][..0] == [];
  }

  /** ... and the place where a kept message stood. */
  lemma {:induction false} KeptFrom(ms: seq<Msg>, f: Flush, j: nat) returns (i: nat)
    requires j < |Kept(ms, f)|
    ensures i < |ms| && !Doomed(f, ms[i]) && ms[i] == Kept(ms, f)[j] && |Kept(ms[..i], f)| == j
  {
    var n := |ms| - 1;
    if j < |Kept(ms[..n], f)| {
      i := KeptFrom(ms[..n], f, j);
      assert ms[..n][..i] == ms[..i];
    } else {
      i := n;
    }
  }

  lemma {:induction false} KeptGrows(ms: seq<Msg>, f: Flush, i: nat, j: nat)
    requires i <= j <= |ms|
    ensures |Kept(ms[..i], f)| <= |Kept(ms[..j], f)|
  {
    assert ms[..j] == ms[..i] + ms[i..j];
    KeptConcat(ms[..i], ms[i..j], f);
  }

  lemma {:induction false} KeptIsValid(l: Tailed<Msg>, f: Flush)
    requires Linked(l) && Increasing(l.items)
    ensures Linked(Purged(l, f)) && Increasing(Kept(l.items, f))
    ensures forall j :: 0 <= j < |Kept(l.items, f)| ==> Kept(l.items, f)[j] in l.items
  {
    if l.last >= 0 && !Doomed(f, l.items[l.last]) {
      KeptAt(l.items, f, l.last);
    }
    forall j, k | 0 <= j < k < |Kept(l.items, f)| ensures Kept(l.items, f)[j].id < Kept(l.items, f)[k].id {
      var a := KeptFrom(l.items, f, j);
      var b := KeptFrom(l.items, f, k);
      if b <= a {
        KeptGrows(l.items, f, b, a);
      }
    }
    forall j | 0 <= j < |Kept(l.items, f)| ensures Kept(l.items, f)[j] in l.items {
      var a := KeptFrom(l.items, f, j);
    }
  }

  /** After a clear, later registrations reach the list exactly when the newest message was kept or
      none was. */
  lemma {:induction false} ClearKeepsTailIff(t: Table, f: Flush)
    requires Valid(t) && TailOk(t.list) && t.list.items != [] && !IsFlushAll(f) && (f.sidFlag != 0 || f.idFlag != 0)
    ensures var l, n := Clear(t, f).0.list, |t.list.items| - 1;
      TailOk(l) <==> !Doomed(f, t.list.items[n]) || forall i :: 0 <= i < n ==> Doomed(f, t.list.items[i])
  {
    var ms, n := t.list.items, |t.list.items| - 1;
    if !Doomed(f, ms[n]) {
      KeptAt(ms, f, n);
    } else if forall i :: 0 <= i < n ==> Doomed(f, ms[i]) {
      if Kept(ms, f) != [] {
        var i := KeptFrom(ms, f, 0);
      }
    } else {
      var i :| 0 <= i < n && !Doomed(f, ms[i]);
      KeptAt(ms, f, i);
    }
  }

  // ---------- what a fetch hands out ----------

  /** The fetch gave out the first wanted message of the list, and only marked it as read; or there was
      none, and nothing has changed. */
  ghost predicate Serves(t: Table, r: (Table, Fetch), wanted: Msg -> bool) {
    var ms := t.list.items;
    if r.1.Found? then
      exists i :: 0 <= i < |ms| && wanted(ms[i]) && (forall j :: 0 <= j < i ==> !wanted(ms[j]))
        && r == (t.(list := t.list.(items := ms[i := ms[i].(unread := false)])), Found(ms[i].(unread := false)))
    else r == (t, Nothing) && forall j :: 0 <= j < |ms| ==> !wanted(ms[j])
  }

  lemma {:induction false} GetServes(t: Table, socks: Socks, sid: int, wanted: Msg -> bool)
    requires Valid(t) && !Refused(socks, sid) && forall m :: m in t.list.items ==> wanted(m) == Wants(socks, sid, m)
    ensures Serves(t, Get(t, socks, sid), wanted)
  {
    var ms := t.list.items;
    if ms != [] {
      var i := Oldest(ms, socks, sid);
      assert forall j :: 0 <= j < |ms| ==> ms[j] in ms;
      assert i < |ms| ==> wanted(ms[i]);
    }
  }

  /** A request for any socket is given the oldest unread message received. */
  lemma {:induction false} FetchFromAny(t: Table, socks: Socks)
    requires Valid(t)
    ensures Serves(t, Get(t, socks, 0), (m: Msg) => m.received && m.unread)
  {
    GetServes(t, socks, 0, (m: Msg) => m.received && m.unread);
  }

  /** One for a UDP, TCP data or raw socket, the oldest of that socket. */
  lemma {:induction false} FetchFromOwn(t: Table, socks: Socks, sid: int)
    requires Valid(t) && sid > 0 && sid in socks && socks[sid].kind in {Udp, Data, Raw}
    ensures Serves(t, Get(t, socks, sid), (m: Msg) => m.received && m.unread && m.sid == sid)
  {
    GetServes(t, socks, sid, (m: Msg) => m.received && m.unread && m.sid == sid);
  }

  /** One for a listening socket, the oldest of the living sockets that it is the parent of. */
  lemma {:induction false} FetchFromChildren(t: Table, socks: Socks, sid: int)
    requires Valid(t) && sid > 0 && sid in socks && socks[sid].kind in {ListenTcp, ListenUdp}
    ensures Serves(t, Get(t, socks, sid), (m: Msg) =>
      && m.received && m.unread && m.sid in socks && socks[m.sid].kind in {Data, Udp} && socks[m.sid].alive
      && socks[m.sid].parent == sid)
  {
    GetServes(t, socks, sid, (m: Msg) =>
      && m.received && m.unread && m.sid in socks && socks[m.sid].kind in {Data, Udp} && socks[m.sid].alive
      && socks[m.sid].parent == sid);
  }

  /** A fetch is an error exactly when there are messages and its socket is negative, unknown or a UNIX one. */
  lemma {:induction false} FetchFailsIff(t: Table, socks: Socks, sid: int)
    requires Valid(t)
    ensures var (t', f) := Get(t, socks, sid);
      && (f == Bad ==> t' == t)
      && (f == Bad <==>
            t.list.items != [] && sid != 0 && (sid < 0 || sid !in socks || socks[sid].kind in {Unix, UnixData}))
  {
  }

  /** Message m is one of those that requests of socket sid ask for: of any socket for 0, of sid itself, or
      of a living socket that it is the parent of. */
  predicate Belongs(socks: Socks, sid: int, m: Msg) {
    && m.received && sid >= 0
    && (sid == 0 || (sid in socks &&
          match socks[sid].kind
          case Udp | Data | Raw => m.sid == sid
          case ListenUdp | ListenTcp =>
            m.sid in socks && socks[m.sid].kind in {Data, Udp} && socks[m.sid].alive && socks[m.sid].parent == sid
          case Unix | UnixData => false))
  }

  /** So what is handed out belongs to the request, and if nothing is, there is nothing unread that does. */
  lemma {:induction false} FetchBelongs(t: Table, socks: Socks, sid: int)
    requires Valid(t)
    ensures var (t', f) := Get(t, socks, sid);
      && (f.Found? ==> Belongs(socks, sid, f.msg) && !f.msg.unread && f.msg.(unread := true) in t.list.items)
      && (!f.Found? ==> forall i :: 0 <= i < |t.list.items| ==>
            !(t.list.items[i].unread && Belongs(socks, sid, t.list.items[i])))
  {
    FetchFailsIff(t, socks, sid);
    if sid == 0 {
      FetchFromAny(t, socks);
    } else if Get(t, socks, sid).1 != Bad && t.list.items != [] {
      match socks[sid].kind
      case Udp | Data | Raw => FetchFromOwn(t, socks, sid);
      case ListenUdp | ListenTcp => FetchFromChildren(t, socks, sid);
      case Unix | UnixData =>
    }
    hide Get;
  }

  // ---------- what is registered ----------

  /** A message is registered exactly below the id limit and for a UDP, TCP data or raw socket: behind
      all others, with the next id, unread. */
  lemma {:induction false} RegistersIff(t: Table, socks: Socks, sid: int, received: bool, data: Bytes)
    requires Valid(t) && TailOk(t.list)
    ensures var (t', ok), m := Regist(t, socks, sid, received, data), Msg(t.lastId + 1, sid, received, true, data);
      && (ok <==> t.lastId != 0x7fffffff && sid in socks && socks[sid].kind in {Udp, Data, Raw})
      && (ok ==> TailOk(t'.list) && t'.list.items == t.list.items + [m] && t'.lastId == m.id)
      && (!ok ==> t' == t)
  {
    AppendsIff(t.list, Msg(t.lastId + 1, sid, received, true, data));
  }

  /** ... so a request of its socket is given it when nothing older is unread, if it was received. */
  lemma {:induction false} RegisteredIsFetched(t: Table, socks: Socks, sid: int, received: bool, data: Bytes)
    requires Valid(t) && TailOk(t.list) && Regist(t, socks, sid, received, data).1
    requires sid > 0 && Get(t, socks, sid).1 == Nothing
    ensures Get(Regist(t, socks, sid, received, data).0, socks, sid).1
      == if received then Found(Msg(t.lastId + 1, sid, true, false, data)) else Nothing
  {
    hide Get;
    hide Regist;
    hide Valid;
    var ms, t' := t.list.items, Regist(t, socks, sid, received, data).0;
    var m := Msg(t.lastId + 1, sid, received, true, data);
    RegistersIff(t, socks, sid, received, data);
    FetchFromOwn(t, socks, sid);
    FetchFromOwn(t', socks, sid);
    assert t'.list.items[|ms|] == m;
    assert forall j :: 0 <= j < |ms| ==> t'.list.items[j] == ms[j];
  }

  // ---------- what a clear takes out ----------

  /** A clear that does not flush everything takes out exactly the messages of the socket it names, if it
      names one, and the message with the id it names. Since ids increase, this says what is left. */
  lemma {:induction false} ClearTakesExactly(t: Table, f: Flush, m: Msg)
    requires Valid(t) && (f.sidFlag != 0 || f.idFlag != 0)
    ensures Clear(t, f).1 && Clear(t, f).0.lastId == t.lastId && Increasing(Clear(t, f).0.list.items)
    ensures m in Clear(t, f).0.list.items <==>
      m in t.list.items && !(f.sidFlag == 1 && m.sid == f.sid) && !(f.idFlag == 1 && m.id == f.id)
  {
    var ms := t.list.items;
    if j :| 0 <= j < |Kept(ms, f)| && Kept(ms, f)[j] == m {
      var i := KeptFrom(ms, f, j);
    }
    if i :| 0 <= i < |ms| && ms[i] == m && !Doomed(f, m) {
      KeptAt(ms, f, i);
    }
  }

  /** Two lists in the order of their ids with the same answers have the same oldest one. */
  lemma {:induction false} SameOldest(ms: seq<Msg>, ks: seq<Msg>, socks: Socks, sid: int)
    requires !Refused(socks, sid) && Increasing(ms) && Increasing(ks)
    requires forall m :: Wants(socks, sid, m) ==> (m in ms <==> m in ks)
    ensures var i, j := Oldest(ms, socks, sid), Oldest(ks, socks, sid);
      (i == |ms| && j == |ks|) || (i < |ms| && j < |ks| && ms[i] == ks[j])
  {
    hide Wants;
    hide Refused;
    var i, j := Oldest(ms, socks, sid), Oldest(ks, socks, sid);
    if i < |ms| {
      var k :| 0 <= k < |ks| && ks[k] == ms[i];
      assert j <= k;
    }
    if j < |ks| {
      var l :| 0 <= l < |ms| && ms[l] == ks[j];
      assert i <= l;
    }
  }

  /** A clear leaves the answers to a socket's requests as they were when it takes none of the messages
      that the socket still has to get. */
  lemma {:induction false} ClearKeepsAnswer(t: Table, f: Flush, socks: Socks, sid: int)
    requires Valid(t) && (f.sidFlag != 0 || f.idFlag != 0)
    requires sid > 0 && sid in socks && socks[sid].kind in {Udp, Data, Raw}
    requires forall m :: m in t.list.items && m.received && m.unread && m.sid == sid ==>
      !(f.sidFlag == 1 && m.sid == f.sid) && !(f.idFlag == 1 && m.id == f.id)
    ensures Get(Clear(t, f).0, socks, sid).1 == Get(t, socks, sid).1
  {
    var ms, ks := t.list.items, Clear(t, f).0.list.items;
    forall m | Wants(socks, sid, m) ensures m in ms <==> m in ks {
      ClearTakesExactly(t, f, m);
    }
    if ms != [] {
      ClearTakesExactly(t, f, ms[0]);
      hide Kept;
      SameOldest(ms, ks, socks, sid);
    }
  }

  /** After its messages are cleared, a socket has none to get, and any other one has what it had. */
  lemma {:induction false} ClearedSocketHasNone(t: Table, socks: Socks, sid: int, other: int)
    requires Valid(t) && sid > 0 && sid in socks && socks[sid].kind in {Udp, Data, Raw}
    requires other > 0 && other in socks && socks[other].kind in {Udp, Data, Raw} && other != sid
    ensures var t' := Clear(t, Flush(1, 0, sid, 0)).0;
      Get(t', socks, sid) == (t', Nothing) && Get(t', socks, other).1 == Get(t, socks, other).1
  {
    var f := Flush(1, 0, sid, 0);
    var t' := Clear(t, f).0;
    FetchFromOwn(t', socks, sid);
    forall m | m in t'.list.items ensures m.sid != sid {
      ClearTakesExactly(t, f, m);
    }
    ClearKeepsAnswer(t, f, socks, other);
  }

  // ---------- the table in place ----------

  class DataTable {
    var list: Tailed<Msg>
    var lastId: int

    function Value(): Table
      reads this
    {
      Table(list, lastId)
    }

    constructor ()
      ensures Valid(Value()) && list.items == [] && lastId == 0
    {
      list, lastId := Empty(), 0;
    }

    method Init()
      modifies this
      ensures Value() == Table(Empty(), 0)
    {
      list, lastId := Empty(), 0;
    }

    method RegistData(socks: Socks, sid: int, received: bool, data: Bytes) returns (ok: bool)
      requires Valid(Value())
      modifies this
      ensures (Value(), ok) == Regist(old(Value()), socks, sid, received, data)
    {
      if lastId == MAX_MSGS || sid !in socks {
        return false;
      }
      var kind := socks[sid].kind;
      if kind == Unix || kind == UnixData || kind == ListenUdp || kind == ListenTcp {
        return false;
      }
      lastId := lastId + 1;
      list := Appended(list, Msg(lastId, sid, received, true, data));
      ok := true;
    }

    /** The search loops of the three kinds of request differ only in their condition. */
    method Search(socks: Socks, sid: int) returns (i: nat)
      requires !Refused(socks, sid)
      ensures i == Oldest(list.items, socks, sid)
    {
      i := 0;
      while i < |list.items|
        invariant i <= |list.items| && forall j :: 0 <= j < i ==> !Wants(socks, sid, list.items[j])
      {
        if Wants(socks, sid, list.items[i]) {
          break;
        }
        i := i + 1;
      }
      FirstIsOldest(list.items, socks, sid, i);
    }

    method GetBySocketId(socks: Socks, sid: int) returns (f: Fetch)
      requires Valid(Value())
      modifies this
      ensures (Value(), f) == Get(old(Value()), socks, sid)
    {
      if list.items == [] {
        return Nothing;
      }
      if Refused(socks, sid) {
        return Bad;
      }
      var i := Search(socks, sid);
      if i == |list.items| {
        return Nothing;
      }
      var m := list.items[i].(unread := false);
      list := list.(items := list.items[i := m]);
      f := Found(m);
    }

    method ClearData(f: Flush) returns (ok: bool)
      requires Valid(Value())
      modifies this
      ensures (Value(), ok) == Clear(old(Value()), f)
    {
      if list.items == [] {
        return true;
      }
      if f.sidFlag == 0 && f.idFlag == 0 {
        if f.sid == 0 && f.id == 0 {
          Init();
          return true;
        }
        return false;
      }
      list := PurgeLoop(list, f);
      ok := true;
    }
  }

  /** The list after the loop has looked at j items. */
  ghost function PurgedUpTo(l: Tailed<Msg>, f: Flush, j: nat): (r: Tailed<Msg>)
    requires Linked(l) && j <= |l.items|
    ensures |r.items| == |Kept(l.items[..j], f)| + |l.items| - j
  {
    Tailed(Kept(l.items[..j], f) + l.items[j..],
           if l.last >= j then l.last - j + |Kept(l.items[..j], f)| else Purged(l, f).last)
  }

  /** What the loop does to the list when item i has to go. */
  function Dropped(l: Tailed<Msg>, i: nat): Tailed<Msg>
    requires i < |l.items|
  {
    Tailed(l.items[..i] + l.items[i + 1..], if l.last == i then -1 else if l.last > i then l.last - 1 else l.last)
  }

  lemma {:induction false} NothingPurged(l: Tailed<Msg>, f: Flush)
    requires Linked(l)
    ensures PurgedUpTo(l, f, 0) == l && Kept(l.items[..0], f) == []
  {
  }

  lemma {:induction false} AllPurged(l: Tailed<Msg>, f: Flush, j: nat)
    requires Linked(l) && j == |l.items|
    ensures PurgedUpTo(l, f, j) == Purged(l, f)
  {
    assert l.items[..j] == l.items;
  }

  lemma {:induction false} PurgeStep(l: Tailed<Msg>, f: Flush, j: nat)
    requires Linked(l) && j < |l.items|
    ensures var i, now, next := |Kept(l.items[..j], f)|, PurgedUpTo(l, f, j), PurgedUpTo(l, f, j + 1);
      && i < |now.items| && now.items[i] == l.items[j]
      && |Kept(l.items[..j + 1], f)| == (if Doomed(f, l.items[j]) then i else i + 1)
      && next == if Doomed(f, l.items[j]) then Dropped(now, i) else now
  {
    PurgeStepItems(l.items, f, j);
    PurgeStepTail(l, f, j);
  }

  lemma {:induction false} PurgeStepItems(ms: seq<Msg>, f: Flush, j: nat)
    requires j < |ms|
    ensures var k, k' := Kept(ms[..j], f), Kept(ms[..j + 1], f);
      && k' == k + (if Doomed(f, ms[j]) then [] else [ms[j]])
      && (k + ms[j..])[|k|] == ms[j]
      && k' + ms[j + 1..] ==
        if Doomed(f, ms[j]) then (k + ms[j..])[..|k|] + (k + ms[j..])[|k| + 1..] else k + ms[j..]
  {
    var k := Kept(ms[..j], f);
    assert ms[..j + 1][..j] == ms[..j];
    assert (k + ms[j..])[..|k|] == k && (k + ms[j..])[|k| + 1..] == ms[j + 1..];
    assert k + [ms[j]] + ms[j + 1..] == k + ms[j..];
  }

  lemma {:induction false} PurgeStepTail(l: Tailed<Msg>, f: Flush, j: nat)
    requires Linked(l) && j < |l.items|
    requires |Kept(l.items[..j + 1], f)| == |Kept(l.items[..j], f)| + if Doomed(f, l.items[j]) then 0 else 1
    ensures var i, now, next := |Kept(l.items[..j], f)|, PurgedUpTo(l, f, j).last, PurgedUpTo(l, f, j + 1).last;
      next == if Doomed(f, l.items[j]) then (if now == i then -1 else if now > i then now - 1 else now) else now
  {
    if 0 <= l.last < j && !Doomed(f, l.items[l.last]) {
      KeptAt(l.items[..j], f, l.last);
      assert l.items[..j][..l.last] == l.items[..l.last];
    }
  }

  /** The removal loop; current is item i. */
  method PurgeLoop(l: Tailed<Msg>, f: Flush) returns (r: Tailed<Msg>)
    requires Linked(l)
    ensures r == Purged(l, f)
  {
    hide Kept;
    hide Doomed;
    hide Purged;
    hide PurgedUpTo;
    NothingPurged(l, f);
    r := l;
    var i := 0;
    ghost var j := 0;
    while i < |r.items|
      invariant j <= |l.items| && i == |Kept(l.items[..j], f)| && r == PurgedUpTo(l, f, j)
      decreases |l.items| - j
    {
      PurgeStep(l, f, j);
      if Doomed(f, r.items[i]) {
        r := Dropped(r, i);
      } else {
        i := i + 1;
      }
      j := j + 1;
    }
    AllPurged(l, f, j);
  }

  lemma {:induction false} FirstIsOldest(ms: seq<Msg>, socks: Socks, sid: int, i: nat)
    requires !Refused(socks, sid) && i <= |ms| && (forall j :: 0 <= j < i ==> !Wants(socks, sid, ms[j]))
    requires i < |ms| ==> Wants(socks, sid, ms[i])
    ensures Oldest(ms, socks, sid) == i
  {
  }
}
