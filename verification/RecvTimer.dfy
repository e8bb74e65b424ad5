/** kRecvTimeoutTimer.c: the receive requests that wait for a message, and process_command_recv_req
    (kDispatcher.c:1597-1656), which makes them wait. */
module RecvTimer {
  import opened TailList
  import opened MessageTable

  datatype Time = Time(sec: int, usec: int)

  /** The two tests of kRecvTimerProc. */
  predicate After(a: Time, b: Time) {
    a.sec > b.sec || (a.sec == b.sec && a.usec > b.usec)
  }

  /** A request for the next message of socket sid (0: of any). */
  datatype Request = Request(handle: int, sid: int, num: int, expire: Time)

  datatype Answer = Ok(msg: Msg) | Timeout | Refusal

  /** A call of recv_ack_return. */
  datatype Ack = Ack(request: Request, answer: Answer)

  /** The list and g_rt_num. */
  datatype Timers = Timers(list: Tailed<Request>, count: int)

  ghost predicate DistinctSids(rs: seq<Request>) {
    forall i, j :: 0 <= i < j < |rs| ==> rs[i].sid != rs[j].sid
  }

  ghost predicate ValidTimers(ts: Timers) {
    Linked(ts.list) && DistinctSids(ts.list.items) && |ts.list.items| <= ts.count
  }

  function Find(rs: seq<Request>, sid: int): (i: nat)
    ensures i <= |rs| && (i < |rs| ==> rs[i].sid == sid)
    ensures forall j :: 0 <= j < i ==> rs[j].sid != sid
  {
    if rs == [] || rs[0].sid == sid then 0 else 1 + Find(rs[1..], sid)
  }

  lemma {:induction false} FirstFound(rs: seq<Request>, sid: int, i: nat)
    requires i <= |rs| && (forall j :: 0 <= j < i ==> rs[j].sid != sid) && (i < |rs| ==> rs[i].sid == sid)
    ensures Find(rs, sid) == i
  {
  }

  /** kRecvTimerSet; maxId is g_socket_socketid. */
  function Set(ts: Timers, maxId: int, r: Request): (s: (Timers, bool))
    requires ValidTimers(ts)
    ensures ValidTimers(s.0)
  {
    if r.sid < 0 || ts.count == maxId || Find(ts.list.items, r.sid) < |ts.list.items| then (ts, false)
    else (Timers(Appended(ts.list, r), ts.count + 1), true)
  }

  /** A request is made to wait exactly if its socket is not negative, no request waits for the same socket
      and the table is not full: behind all others. */
  lemma {:induction false} WaitsIff(ts: Timers, maxId: int, r: Request)
    requires ValidTimers(ts) && TailOk(ts.list)
    ensures var (ts', ok), rs := Set(ts, maxId, r), ts.list.items;
      && (ok <==> r.sid >= 0 && ts.count != maxId && forall i :: 0 <= i < |rs| ==> rs[i].sid != r.sid)
      && (ok ==> TailOk(ts'.list) && ts'.list.items == rs + [r] && ts'.count == ts.count + 1)
      && (!ok ==> ts' == ts)
  {
    AppendsIff(ts.list, r);
  }

  function RemovedAt(ts: Timers, i: nat): (s: Timers)
    requires ValidTimers(ts) && i < |ts.list.items|
    ensures ValidTimers(s) && s.list.items == ts.list.items[..i] + ts.list.items[i + 1..]
  {
    assert forall j :: 0 <= j < |ts.list.items| - 1 ==>
      Unlinked(ts.list, i).items[j] == ts.list.items[if j < i then j else j + 1];
    Timers(Unlinked(ts.list, i), ts.count - 1)
  }

  /** kRecvTimerRemove, which looks the request up by its socket. */
  function Remove(ts: Timers, sid: int): (s: Timers)
    requires ValidTimers(ts) && Find(ts.list.items, sid) < |ts.list.items|
    ensures ValidTimers(s)
  {
    RemovedAt(ts, Find(ts.list.items, sid))
  }

  // ---------- one pass ----------

  /** What becomes of one request: whether it stays, how it is acknowledged, and the messages. */
  datatype Settled = Settled(stays: bool, acks: seq<Ack>, table: Table)

  function Settle(r: Request, t: Table, socks: Socks, now: Time): (s: Settled)
    requires Valid(t)
    ensures Valid(s.table)
    ensures s.acks == [] || (|s.acks| == 1 && s.acks[0].request == r && !s.stays)
  {
    var (t', f) := Get(t, socks, r.sid);
    match f
    case Bad => Settled(false, [], t')
    case Nothing => if After(r.expire, now) then Settled(true, [], t') else Settled(false, [Ack(r, Timeout)], t')
    case Found(m) => Settled(false, [Ack(r, Ok(m))], t')
  }

  /** kRecvTimerProc from request i on: the timers, the acknowledgements in order, the messages. */
  ghost function Pass(ts: Timers, i: nat, t: Table, socks: Socks, now: Time): (s: (Timers, seq<Ack>, Table))
    requires ValidTimers(ts) && Valid(t) && i <= |ts.list.items|
    ensures ValidTimers(s.0) && Valid(s.2)
    decreases |ts.list.items| - i
  {
    if i == |ts.list.items| then (ts, [], t)
    else
      var r := ts.list.items[i];
      FirstFound(ts.list.items, r.sid, i);
      var d := Settle(r, t, socks, now);
      var p := if d.stays then Pass(ts, i + 1, d.table, socks, now)
               else Pass(Remove(ts, r.sid), i, d.table, socks, now);
      (p.0, d.acks + p.1, p.2)
  }

  /** What a pass is meant to do: look at each request once, from the first to the last. */
  datatype Swept = Swept(kept: seq<Request>, acks: seq<Ack>, table: Table)

  ghost function Sweep(rs: seq<Request>, t: Table, socks: Socks, now: Time): (s: Swept)
    requires Valid(t)
    ensures Valid(s.table)
  {
    if rs == [] then Swept([], [], t)
    else
      var d := Settle(rs[0], t, socks, now);
      var s := Sweep(rs[1..], d.table, socks, now);
      Swept((if d.stays then [rs[0]] else []) + s.kept, d.acks + s.acks, s.table)
  }

  lemma {:induction false} PassUnfolds(ts: Timers, i: nat, t: Table, socks: Socks, now: Time)
    requires ValidTimers(ts) && Valid(t) && i <= |ts.list.items|
    ensures i == |ts.list.items| ==> Pass(ts, i, t, socks, now) == (ts, [], t)
    ensures i < |ts.list.items| ==>
      var d, p := Settle(ts.list.items[i], t, socks, now), Pass(ts, i, t, socks, now);
      var q := if d.stays then Pass(ts, i + 1, d.table, socks, now) else Pass(RemovedAt(ts, i), i, d.table, socks, now);
      p == (q.0, d.acks + q.1, q.2)
  {
    if i < |ts.list.items| {
      FirstFound(ts.list.items, ts.list.items[i].sid, i);
    }
  }

  lemma {:induction false} SweepUnfolds(rs: seq<Request>, t: Table, socks: Socks, now: Time)
    requires Valid(t)
    ensures rs == [] ==> Sweep(rs, t, socks, now) == Swept([], [], t)
    ensures rs != [] ==>
      var d := Settle(rs[0], t, socks, now);
      var s := Sweep(rs[1..], d.table, socks, now);
      Sweep(rs, t, socks, now) == Swept((if d.stays then [rs[0]] else []) + s.kept, d.acks + s.acks, s.table)
  {
  }

  /** The pass that removes requests from the list under its own feet is the sweep. */
  lemma {:induction false} PassIsSweep(ts: Timers, i: nat, t: Table, socks: Socks, now: Time)
    requires ValidTimers(ts) && Valid(t) && i <= |ts.list.items|
    ensures var (ts', acks, t'), s := Pass(ts, i, t, socks, now), Sweep(ts.list.items[i..], t, socks, now);
      && ts'.list.items == ts.list.items[..i] + s.kept && acks == s.acks && t' == s.table
      && ts'.count == ts.count - (|ts.list.items| - |ts'.list.items|)
    decreases |ts.list.items| - i
  {
    hide *;
    var rs := ts.list.items;
    PassUnfolds(ts, i, t, socks, now);
    SweepUnfolds(rs[i..], t, socks, now);
    if i < |rs| {
      var r := rs[i];
      var d := Settle(r, t, socks, now);
      assert rs[i..][0] == r && rs[i..][1..] == rs[i + 1..];
      if d.stays {
        PassIsSweep(ts, i + 1, d.table, socks, now);
        assert rs[..i + 1] == rs[..i] + [r];
      } else {
        var less := RemovedAt(ts, i);
        RemovedCount(ts, i);
        assert less.list.items[..i] == rs[..i] && less.list.items[i..] == rs[i + 1..];
        PassIsSweep(less, i, d.table, socks, now);
      }
    }
  }

  lemma {:induction false} RemovedCount(ts: Timers, i: nat)
    requires ValidTimers(ts) && i < |ts.list.items|
    ensures RemovedAt(ts, i).count == ts.count - 1
  {
  }

  // ---------- what a pass leaves pending ----------

  /** Messages only ever become read in a pass. */
  predicate OnlyReads(t: Table, t': Table) {
    && t'.lastId == t.lastId && |t'.list.items| == |t.list.items|
    && forall i :: 0 <= i < |t.list.items| ==>
      t'.list.items[i] == t.list.items[i] || t'.list.items[i] == t.list.items[i].(unread := false)
  }

  lemma {:induction false} SweepOnlyReads(rs: seq<Request>, t: Table, socks: Socks, now: Time)
    requires Valid(t)
    ensures OnlyReads(t, Sweep(rs, t, socks, now).table)
  {
    hide *;
    SweepUnfolds(rs, t, socks, now);
    if rs == [] {
      NothingRead(t);
    } else {
      var d := Settle(rs[0], t, socks, now);
      SettleOnlyReads(rs[0], t, socks, now);
      SweepOnlyReads(rs[1..], d.table, socks, now);
      ReadsAdd(t, d.table, Sweep(rs[1..], d.table, socks, now).table);
    }
  }

  lemma {:induction false} NothingRead(t: Table)
    ensures OnlyReads(t, t)
  {
  }

  lemma {:induction false} SettleOnlyReads(r: Request, t: Table, socks: Socks, now: Time)
    requires Valid(t)
    ensures OnlyReads(t, Settle(r, t, socks, now).table)
  {
  }

  lemma {:induction false} ReadsAdd(t: Table, t': Table, t'': Table)
    requires OnlyReads(t, t') && OnlyReads(t', t'')
    ensures OnlyReads(t, t'')
  {
  }

  lemma {:induction false} NothingStaysNothing(t: Table, t': Table, socks: Socks, sid: int)
    requires Valid(t) && Valid(t') && OnlyReads(t, t') && Get(t, socks, sid).1 == Nothing
    ensures Get(t', socks, sid) == (t', Nothing)
  {
    if t.list.items != [] {
      forall j | 0 <= j < |t.list.items| ensures !Wants(socks, sid, t'.list.items[j]) {
        assert !Wants(socks, sid, t.list.items[j]);
      }
      FirstIsOldest(t'.list.items, socks, sid, |t.list.items|);
    }
  }

  /** The messages as each request finds them when its turn comes. */
  ghost function Turns(rs: seq<Request>, t: Table, socks: Socks, now: Time): (turns: seq<Table>)
    requires Valid(t)
    ensures |turns| == |rs| && forall i :: 0 <= i < |rs| ==> Valid(turns[i])
  {
    if rs == [] then [] else [t] + Turns(rs[1..], Settle(rs[0], t, socks, now).table, socks, now)
  }

  ghost predicate Stays(r: Request, t: Table, socks: Socks, now: Time)
    requires Valid(t)
  {
    Get(t, socks, r.sid).1 == Nothing && After(r.expire, now)
  }

  /** The requests whose flag is set, in their order. */
  ghost function Pick(rs: seq<Request>, flags: seq<bool>): seq<Request>
    requires |flags| == |rs|
  {
    if rs == [] then [] else (if flags[0] then [rs[0]] else []) + Pick(rs[1..], flags[1..])
  }

  /** After a pass, in the original order: what is still pending is exactly what had no answer when its
      turn came and whose deadline is still ahead. */
  lemma {:induction false} PendingAfterPass(rs: seq<Request>, t: Table, socks: Socks, now: Time)
      returns (flags: seq<bool>)
    requires Valid(t)
    ensures |flags| == |rs| && Sweep(rs, t, socks, now).kept == Pick(rs, flags)
    ensures var turns := Turns(rs, t, socks, now);
      forall i :: 0 <= i < |rs| ==> flags[i] == Stays(rs[i], turns[i], socks, now)
  {
    if rs == [] {
      flags := [];
    } else {
      var d := Settle(rs[0], t, socks, now);
      assert d.stays == Stays(rs[0], t, socks, now);
      hide Settle;
      hide Stays;
      var flags' := PendingAfterPass(rs[1..], d.table, socks, now);
      flags := [d.stays] + flags';
      assert flags[1..] == flags';
    }
  }

  /** ... and there is no answer for any of them at the end of the pass either. */
  lemma {:induction false} NothingMissed(rs: seq<Request>, t: Table, socks: Socks, now: Time)
    requires Valid(t)
    ensures var s := Sweep(rs, t, socks, now);
      forall k :: 0 <= k < |s.kept| ==> Stays(s.kept[k], s.table, socks, now)
  {
    hide *;
    SweepUnfolds(rs, t, socks, now);
    if rs != [] {
      var d := Settle(rs[0], t, socks, now);
      NothingMissed(rs[1..], d.table, socks, now);
      SweepOnlyReads(rs[1..], d.table, socks, now);
      if d.stays {
        StillStays(rs[0], t, Sweep(rs[1..], d.table, socks, now).table, socks, now);
      }
    }
  }

  lemma {:induction false} StillStays(r: Request, t: Table, t': Table, socks: Socks, now: Time)
    requires Valid(t) && Valid(t') && Settle(r, t, socks, now).stays
    requires OnlyReads(Settle(r, t, socks, now).table, t')
    ensures Stays(r, t', socks, now)
  {
    NothingStaysNothing(t, t', socks, r.sid);
  }

  /** The requests acknowledged. */
  ghost function Asked(acks: seq<Ack>): (rs: seq<Request>)
    ensures |rs| == |acks|
  {
    seq(|acks|, i requires 0 <= i < |acks| => acks[i].request)
  }

  /** The requests that a pass takes off the list without a word: fetching their message is an error. */
  ghost function GivenUp(rs: seq<Request>, t: Table, socks: Socks, now: Time): seq<Request>
    requires Valid(t)
  {
    if rs == [] then []
    else
      (if Get(t, socks, rs[0].sid).1.Bad? then [rs[0]] else [])
      + GivenUp(rs[1..], Settle(rs[0], t, socks, now).table, socks, now)
  }

  lemma {:induction false} GivenUpUnfolds(rs: seq<Request>, t: Table, socks: Socks, now: Time)
    requires Valid(t)
    ensures rs == [] ==> GivenUp(rs, t, socks, now) == []
    ensures rs != [] ==>
      var d := Settle(rs[0], t, socks, now);
      GivenUp(rs, t, socks, now) ==
      (if d.acks == [] && !d.stays then [rs[0]] else []) + GivenUp(rs[1..], d.table, socks, now)
  {
  }

  lemma {:induction false} SumsUp(rs: seq<Request>, r: Request, a: seq<Request>, k: seq<Request>, d: seq<Request>,
      acked: bool, kept: bool)
    requires multiset(a) + multiset(k) + multiset(d) == multiset(rs) && !(acked && kept)
    ensures multiset((if acked then [r] else []) + a) + multiset((if kept then [r] else []) + k)
      + multiset((if !acked && !kept then [r] else []) + d) == multiset([r] + rs)
  {
  }

  /** In a pass, each request is acknowledged once, or kept, or dropped. */
  lemma {:induction false} SweepSettlesOnce(rs: seq<Request>, t: Table, socks: Socks, now: Time)
    requires Valid(t)
    ensures var s := Sweep(rs, t, socks, now);
      multiset(Asked(s.acks)) + multiset(s.kept) + multiset(GivenUp(rs, t, socks, now)) == multiset(rs)
  {
    hide *;
    SweepUnfolds(rs, t, socks, now);
    GivenUpUnfolds(rs, t, socks, now);
    if rs == [] {
      assert Asked([]) == [];
    } else {
      var d := Settle(rs[0], t, socks, now);
      var s := Sweep(rs[1..], d.table, socks, now);
      SweepSettlesOnce(rs[1..], d.table, socks, now);
      SumsUp(rs[1..], rs[0], Asked(s.acks), s.kept, GivenUp(rs[1..], d.table, socks, now), d.acks != [], d.stays);
      AskedJoins(d.acks, s.acks, rs[0]);
      assert rs == [rs[0]] + rs[1..];
    }
  }

  lemma {:induction false} AskedJoins(a: seq<Ack>, b: seq<Ack>, r: Request)
    requires a == [] || (|a| == 1 && a[0].request == r)
    ensures Asked(a + b) == (if a != [] then [r] else []) + Asked(b)
  {
  }

  // ---------- deadlines and answers, read off the fields ----------

  predicate Normal(t: Time) {
    0 <= t.usec < 1000000
  }

  function Micros(t: Time): int {
    t.sec * 1000000 + t.usec
  }

  /** An acknowledgement of a pass: a message that belongs to the request, or word that its time is up. */
  ghost predicate Justified(a: Ack, socks: Socks, now: Time) {
    match a.answer
    case Ok(m) => Belongs(socks, a.request.sid, m) && !m.unread
    case Timeout => Normal(now) && Normal(a.request.expire) ==> Micros(a.request.expire) <= Micros(now)
    case Refusal => false
  }

  lemma {:induction false} SettleJustified(r: Request, t: Table, socks: Socks, now: Time)
    requires Valid(t)
    ensures var d := Settle(r, t, socks, now);
      && (d.stays && Normal(now) && Normal(r.expire) ==> Micros(r.expire) > Micros(now))
      && (d.acks != [] ==> Justified(d.acks[0], socks, now))
  {
    FetchBelongs(t, socks, r.sid);
    hide Get;
  }

  /** In a pass, every acknowledgement is justified, and what is still pending was there and is not due. */
  lemma {:induction false} SweepIsJustified(rs: seq<Request>, t: Table, socks: Socks, now: Time)
    requires Valid(t)
    ensures var s := Sweep(rs, t, socks, now);
      && (forall a :: 0 <= a < |s.acks| ==> Justified(s.acks[a], socks, now) && s.acks[a].request in rs)
      && (forall k :: 0 <= k < |s.kept| ==> s.kept[k] in rs)
      && (forall k :: 0 <= k < |s.kept| ==> Normal(now) ==> Normal(s.kept[k].expire) ==>
            Micros(s.kept[k].expire) > Micros(now))
  {
    hide *;
    SweepUnfolds(rs, t, socks, now);
    if rs != [] {
      SettleJustified(rs[0], t, socks, now);
      SweepIsJustified(rs[1..], Settle(rs[0], t, socks, now).table, socks, now);
    }
  }

  /** A request is dropped without a word only if its socket is negative, unknown or a UNIX one. */
  lemma {:induction false} OnlyWrongSocketsAreDropped(rs: seq<Request>, t: Table, socks: Socks, now: Time, k: nat)
    requires Valid(t) && k < |GivenUp(rs, t, socks, now)|
    ensures var r := GivenUp(rs, t, socks, now)[k];
      r in rs && r.sid != 0 && (r.sid < 0 || r.sid !in socks || socks[r.sid].kind in {Unix, UnixData})
  {
    var t' := Settle(rs[0], t, socks, now).table;
    FetchFailsIff(t, socks, rs[0].sid);
    hide Settle;
    hide Get;
    var bad := Get(t, socks, rs[0].sid).1.Bad?;
    if !bad || k > 0 {
      OnlyWrongSocketsAreDropped(rs[1..], t', socks, now, if bad then k - 1 else k);
    }
  }

  // ---------- the tail pointer ----------

  lemma {:induction false} PassKeepsTailBehind(ts: Timers, i: nat, t: Table, socks: Socks, now: Time)
    requires ValidTimers(ts) && Valid(t) && 0 < i <= |ts.list.items|
    ensures var rs, l := ts.list.items, Pass(ts, i, t, socks, now).0.list;
      && i <= |l.items| <= |rs| && l.items[..i] == rs[..i]
      && (TailOk(l) <==> (l.items == rs && TailOk(ts.list)) || l.items[|l.items| - 1] != rs[|rs| - 1])
    decreases |ts.list.items| - i
  {
    hide *;
    var rs := ts.list.items;
    PassUnfolds(ts, i, t, socks, now);
    if i < |rs| {
      var r := rs[i];
      var d := Settle(r, t, socks, now);
      if d.stays {
        PassKeepsTailBehind(ts, i + 1, d.table, socks, now);
        assert rs[..i + 1][..i] == rs[..i];
      } else {
        var less := RemovedAt(ts, i);
        RemovedTail(ts, i);
        PassKeepsTailBehind(less, i, d.table, socks, now);
        assert less.list.items[..i] == rs[..i];
      }
    }
  }

  lemma {:induction false} RemovedTail(ts: Timers, i: nat)
    requires ValidTimers(ts) && i < |ts.list.items|
    ensures var l, rs := RemovedAt(ts, i).list, ts.list.items;
      && (TailOk(l) <==> i == |rs| - 1 || (i == 0 && TailOk(ts.list)))
      && |l.items| == |rs| - 1 && (i < |rs| - 1 ==> l.items[|rs| - 2] == rs[|rs| - 1])
      && (0 < i == |rs| - 1 ==> l.items[|rs| - 2] != rs[|rs| - 1])
  {
    UnlinkKeepsTailIff(ts.list, i);
  }

  /** The tail pointer is right, the requests having been rs before and the pointer then right or not. */
  predicate RightTail(rs: seq<Request>, before: bool, rs': seq<Request>) {
    && |rs'| <= |rs|
    && (|| rs' == [] || rs'[|rs'| - 1] != rs[|rs| - 1]
        || (before && rs' == rs[|rs| - |rs'|..]))
  }

  lemma {:induction false} HeadRemoved(rs: seq<Request>, before: bool, rs': seq<Request>)
    requires rs != [] && |rs'| < |rs|
    ensures RightTail(rs[1..], |rs| == 1 || before, rs') == RightTail(rs, before, rs')
  {
    assert rs[1..][|rs| - 1 - |rs'|..] == rs[|rs| - |rs'|..];
  }

  /** A pass leaves the tail pointer right exactly when the last request was removed, or it was right
      before and the requests removed are the first ones of the list. */
  lemma {:induction false} PassKeepsTailIff(ts: Timers, t: Table, socks: Socks, now: Time)
    requires ValidTimers(ts) && Valid(t)
    ensures var l := Pass(ts, 0, t, socks, now).0.list;
      |l.items| <= |ts.list.items| && TailOk(l) == RightTail(ts.list.items, TailOk(ts.list), l.items)
    decreases |ts.list.items|
  {
    hide *;
    var rs, rs' := ts.list.items, Pass(ts, 0, t, socks, now).0.list.items;
    PassUnfolds(ts, 0, t, socks, now);
    if rs == [] {
      EmptyTail(ts.list);
    } else {
      var d := Settle(rs[0], t, socks, now);
      if d.stays {
        PassKeepsTailBehind(ts, 1, d.table, socks, now);
        OnlyAllStartsWithFirst(ts, rs');
      } else {
        var less := RemovedAt(ts, 0);
        RemovedTail(ts, 0);
        PassKeepsTailIff(less, d.table, socks, now);
        assert less.list.items == rs[1..];
        HeadRemoved(rs, TailOk(ts.list), rs');
      }
    }
  }

  lemma {:induction false} EmptyTail(l: Tailed<Request>)
    requires l.items == []
    ensures TailOk(l) && RightTail(l.items, TailOk(l), l.items)
  {
  }

  /** No proper tail of a list without duplicates begins like the list. */
  lemma {:induction false} OnlyAllStartsWithFirst(ts: Timers, rs': seq<Request>)
    requires ValidTimers(ts) && 0 < |rs'| <= |ts.list.items| && rs'[..1] == ts.list.items[..1]
    ensures var rs := ts.list.items;
      RightTail(rs, TailOk(ts.list), rs') == ((rs' == rs && TailOk(ts.list)) || rs'[|rs'| - 1] != rs[|rs| - 1])
  {
    var rs := ts.list.items;
    assert rs'[..1][0] == rs'[0] && rs[..1][0] == rs[0];
    if rs' == rs[|rs| - |rs'|..] {
      assert rs'[0] == rs[|rs| - |rs'|];
    }
  }

  // ---------- the code ----------

  /** process_command_recv_req. A request that cannot be made to wait is not acknowledged at all. */
  function Command(ts: Timers, t: Table, socks: Socks, maxId: int, r: Request): (s: (Timers, Table, seq<Ack>))
    requires ValidTimers(ts) && Valid(t)
    ensures ValidTimers(s.0) && Valid(s.1)
  {
    var (t', f) := Get(t, socks, r.sid);
    match f
    case Bad => (ts, t', [Ack(r, Refusal)])
    case Nothing => (Set(ts, maxId, r).0, t', [])
    case Found(m) => (ts, t', [Ack(r, Ok(m))])
  }

  /** With acks given so far, p is what is left of the whole pass. */
  ghost predicate Continues(whole: (Timers, seq<Ack>, Table), acks: seq<Ack>, p: (Timers, seq<Ack>, Table)) {
    whole == (p.0, acks + p.1, p.2)
  }

  lemma {:induction false} ContinuesOn(whole: (Timers, seq<Ack>, Table), acks: seq<Ack>, more: seq<Ack>,
      p: (Timers, seq<Ack>, Table))
    requires Continues(whole, acks, (p.0, more + p.1, p.2))
    ensures Continues(whole, acks + more, p)
  {
    assert acks + (more + p.1) == acks + more + p.1;
  }

  class TimerTable {
    var list: Tailed<Request>
    var count: int

    function Value(): Timers
      reads this
    {
      Timers(list, count)
    }

    constructor ()
      ensures ValidTimers(Value()) && list.items == []
    {
      list, count := Empty(), 0;
    }

    method Search(sid: int) returns (i: nat)
      ensures i == Find(list.items, sid)
    {
      i := 0;
      while i < |list.items|
        invariant i <= |list.items| && forall j :: 0 <= j < i ==> list.items[j].sid != sid
      {
        if list.items[i].sid == sid {
          break;
        }
        i := i + 1;
      }
      FirstFound(list.items, sid, i);
    }

    method SetTimer(maxId: int, r: Request) returns (ok: bool)
      requires ValidTimers(Value())
      modifies this
      ensures (Value(), ok) == Set(old(Value()), maxId, r)
    {
      if r.sid < 0 || count == maxId {
        return false;
      }
      var i := Search(r.sid);
      if i < |list.items| {
        return false;
      }
      count := count + 1;
      list := Appended(list, r);
      ok := true;
    }

    method RemoveTimer(sid: int)
      requires ValidTimers(Value()) && Find(list.items, sid) < |list.items|
      modifies this
      ensures Value() == Remove(old(Value()), sid)
    {
      var i := Search(sid);
      list := Unlinked(list, i);
      count := count - 1;
    }

    /** The body of the loop of kRecvTimerProc. */
    method Attend(i: nat, table: DataTable, socks: Socks, now: Time) returns (stays: bool, acks: seq<Ack>)
      requires ValidTimers(Value()) && Valid(table.Value()) && i < |list.items|
      modifies this, table
      ensures var d := Settle(old(list.items[i]), old(table.Value()), socks, now);
        && stays == d.stays && acks == d.acks && table.Value() == d.table
        && Value() == if stays then old(Value()) else RemovedAt(old(Value()), i)
    {
      var r := list.items[i];
      FirstFound(list.items, r.sid, i);
      var f := table.GetBySocketId(socks, r.sid);
      hide Get;
      hide RemovedAt;
      stays := f.Nothing? && After(r.expire, now);
      acks := if stays || f.Bad? then [] else [Ack(r, if f.Found? then Ok(f.msg) else Timeout)];
      if !stays {
        RemoveTimer(r.sid);
      }
    }

    /** kRecvTimerProc. Request i is freed before its next pointer is read; the pointer read is the
        one it had. */
    method Proc(table: DataTable, socks: Socks, now: Time) returns (acks: seq<Ack>)
      requires ValidTimers(Value()) && Valid(table.Value())
      modifies this, table
      ensures (Value(), acks, table.Value()) == Pass(old(Value()), 0, old(table.Value()), socks, now)
    {
      acks := [];
      ghost var whole := Pass(Value(), 0, table.Value(), socks, now);
      PassUnfolds(Value(), 0, table.Value(), socks, now);
      assert count == 0 ==> list.items == [];
      hide Pass;
      hide RemovedAt;
      hide Settle;
      hide Valid;
      hide ValidTimers;
      assert Continues(whole, [], whole) by {
        assert [] + whole.1 == whole.1;
      }
      if count == 0 {
        return;
      }
      var i := 0;
      while i < |list.items|
        invariant ValidTimers(Value()) && Valid(table.Value()) && i <= |list.items|
        invariant Continues(whole, acks, Pass(Value(), i, table.Value(), socks, now))
        decreases |list.items| - i
      {
        PassUnfolds(Value(), i, table.Value(), socks, now);
        RemovedCount(Value(), i);
        ghost var was := acks;
        var stays, more := Attend(i, table, socks, now);
        acks := acks + more;
        if stays {
          i := i + 1;
        }
        ContinuesOn(whole, was, more, Pass(Value(), i, table.Value(), socks, now));
      }
      PassUnfolds(Value(), i, table.Value(), socks, now);
      assert acks + [] == acks;
    }

    method ReceiveCommand(table: DataTable, socks: Socks, maxId: int, r: Request) returns (acks: seq<Ack>)
      requires ValidTimers(Value()) && Valid(table.Value())
      modifies this, table
      ensures (Value(), table.Value(), acks) == Command(old(Value()), old(table.Value()), socks, maxId, r)
    {
      var f := table.GetBySocketId(socks, r.sid);
      match f
      case Bad =>
        acks := [Ack(r, Refusal)];
      case Nothing =>
        var _ := SetTimer(maxId, r);
        acks := [];
      case Found(m) =>
        acks := [Ack(r, Ok(m))];
    }
  }
}
