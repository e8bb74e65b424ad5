/** Whole runs of the message table together with the receive requests: what is handed out, how often and
    in which order, and that no request waits in vain after the timer has gone off. */
module RecvRuns {
  import opened Wrappers
  import opened TailList
  import opened MessageTable
  import opened RecvTimer

  /** A message arrives or is sent; a client asks for a message, or for messages to be cleared; the
      timer goes off. */
  datatype Event =
    | Arrives(sid: int, data: Bytes)
    | Sends(sid: int, data: Bytes)
    | Asks(request: Request)
    | Passes(now: Time)
    | Flushes(flush: Flush)

  /** An event, and the socket table (with its largest id) when it happens. */
  datatype Step = Step(socks: Socks, maxId: int, ev: Event)

  /** The rest is history: all acknowledgements; and since message ids last started from 1, the
      acknowledgements and all messages as they were registered. */
  datatype System = System(timers: Timers, table: Table, acks: seq<Ack>, recent: seq<Ack>, log: seq<Msg>)

  ghost function Registered(s: System, socks: Socks, sid: int, received: bool, data: Bytes): System
    requires Valid(s.table)
  {
    var (t, ok) := Regist(s.table, socks, sid, received, data);
    s.(table := t, log := if ok then s.log + [Msg(t.lastId, sid, received, true, data)] else s.log)
  }

  /** A flush of everything that finds messages starts the ids again. */
  predicate Restarts(s: System, st: Step) {
    st.ev.Flushes? && IsFlushAll(st.ev.flush) && s.table.list.items != []
  }

  ghost function Next(s: System, st: Step): (n: System)
    requires Valid(s.table) && ValidTimers(s.timers)
    ensures Valid(n.table) && ValidTimers(n.timers)
  {
    match st.ev
    case Arrives(sid, data) => Registered(s, st.socks, sid, true, data)
    case Sends(sid, data) => Registered(s, st.socks, sid, false, data)
    case Asks(r) =>
      var (ts, t, acks) := Command(s.timers, s.table, st.socks, st.maxId, r);
      System(ts, t, s.acks + acks, s.recent + acks, s.log)
    case Passes(now) =>
      var (ts, acks, t) := Pass(s.timers, 0, s.table, st.socks, now);
      System(ts, t, s.acks + acks, s.recent + acks, s.log)
    case Flushes(f) =>
      var n := s.(table := Clear(s.table, f).0);
      if Restarts(s, st) then n.(recent := [], log := []) else n
  }

  ghost function Run(steps: seq<Step>): (s: System)
    ensures Valid(s.table) && ValidTimers(s.timers)
  {
    if steps == [] then System(Timers(Empty(), 0), Table(Empty(), 0), [], [], [])
    else Next(Run(steps[..|steps| - 1]), steps[|steps| - 1])
  }

  // ---------- every message at most once ----------

  /** The log counts its messages from 1, and the table holds messages of the log. */
  ghost predicate Logged(t: Table, log: seq<Msg>) {
    && |log| == t.lastId
    && (forall k :: 0 <= k < |log| ==> log[k].id == k + 1)
    && (forall i :: 0 <= i < |t.list.items| ==>
          var m := t.list.items[i];
          1 <= m.id <= |log| && m.(unread := log[m.id - 1].unread) == log[m.id - 1])
  }

  /** Message m was received as the log has it, and is not unread in the table any more. */
  ghost predicate Spent(t: Table, log: seq<Msg>, m: Msg) {
    && 1 <= m.id <= |log| && log[m.id - 1].received && m == log[m.id - 1].(unread := false)
    && (forall i :: 0 <= i < |t.list.items| ==> t.list.items[i].id == m.id ==> !t.list.items[i].unread)
  }

  /** Whatever was handed out was received, is spent, and was handed out once. */
  ghost predicate Honest(t: Table, acks: seq<Ack>, log: seq<Msg>) {
    && Logged(t, log)
    && (forall a :: 0 <= a < |acks| ==> acks[a].answer.Ok? ==> Spent(t, log, acks[a].answer.msg))
    && (forall a, b :: 0 <= a < b < |acks| ==> acks[a].answer.Ok? ==> acks[b].answer.Ok? ==>
          acks[a].answer.msg.id != acks[b].answer.msg.id)
  }

  lemma {:induction false} OtherAckHonest(t: Table, acks: seq<Ack>, log: seq<Msg>, a: Ack)
    requires Honest(t, acks, log) && !a.answer.Ok?
    ensures Honest(t, acks + [a], log)
  {
  }

  lemma {:induction false} SettleHonest(r: Request, t: Table, socks: Socks, now: Time, acks: seq<Ack>, log: seq<Msg>)
    requires Valid(t) && Honest(t, acks, log)
    ensures var d := Settle(r, t, socks, now); Honest(d.table, acks + d.acks, log)
  {
    hide Honest;
    hide Valid;
    if Get(t, socks, r.sid).1.Found? {
      FetchHonest(r, t, socks, acks, log);
    } else {
      OtherAckHonest(t, acks, log, Ack(r, Timeout));
      assert acks + [] == acks;
    }
  }

  lemma {:induction false} FetchHonest(r: Request, t: Table, socks: Socks, acks: seq<Ack>, log: seq<Msg>)
    requires Valid(t) && Honest(t, acks, log) && Get(t, socks, r.sid).1.Found?
    ensures var (t', f) := Get(t, socks, r.sid); Honest(t', acks + [Ack(r, Ok(f.msg))], log)
  {
    var (t', f) := Get(t, socks, r.sid);
    var i := Oldest(t.list.items, socks, r.sid);
    assert Logged(t', log);
    forall a | 0 <= a < |acks| && acks[a].answer.Ok?
      ensures Spent(t', log, acks[a].answer.msg) && acks[a].answer.msg.id != f.msg.id
    {
      assert Spent(t, log, acks[a].answer.msg);
    }
    assert Spent(t', log, f.msg);
  }

  lemma {:induction false} SweepHonest(rs: seq<Request>, t: Table, socks: Socks, now: Time, acks: seq<Ack>,
      log: seq<Msg>)
    requires Valid(t) && Honest(t, acks, log)
    ensures var s := Sweep(rs, t, socks, now); Honest(s.table, acks + s.acks, log)
  {
    hide *;
    SweepUnfolds(rs, t, socks, now);
    if rs == [] {
      assert acks + [] == acks;
    } else {
      var d := Settle(rs[0], t, socks, now);
      SettleHonest(rs[0], t, socks, now, acks, log);
      SweepHonest(rs[1..], d.table, socks, now, acks + d.acks, log);
      var more := Sweep(rs[1..], d.table, socks, now).acks;
      assert acks + d.acks + more == acks + (d.acks + more);
    }
  }

  lemma {:induction false} RegistLogged(t: Table, log: seq<Msg>, m: Msg)
    requires Valid(t) && Logged(t, log) && m.unread && m.id == t.lastId + 1
    ensures Logged(Table(Appended(t.list, m), t.lastId + 1), log + [m])
  {
    var was, now := t.list.items, Appended(t.list, m).items;
    forall i | 0 <= i < |now|
      ensures 1 <= now[i].id <= |log| + 1 && now[i].(unread := (log + [m])[now[i].id - 1].unread) ==
          (log + [m])[now[i].id - 1]
    {
      assert now[i] == m || (i < |was| && now[i] == was[i]);
    }
  }

  lemma {:induction false} RegistHonest(s: System, socks: Socks, sid: int, received: bool, data: Bytes)
    requires Valid(s.table) && Honest(s.table, s.recent, s.log)
    ensures var n := Registered(s, socks, sid, received, data); Honest(n.table, n.recent, n.log)
  {
    var (t, ok) := Regist(s.table, socks, sid, received, data);
    if ok {
      var m := Msg(t.lastId, sid, received, true, data);
      RegistLogged(s.table, s.log, m);
      forall a | 0 <= a < |s.recent| && s.recent[a].answer.Ok? ensures Spent(t, s.log + [m], s.recent[a].answer.msg) {
        SpentStays(s.table, s.log, s.recent[a].answer.msg, m);
      }
    }
  }

  lemma {:induction false} SpentStays(t: Table, log: seq<Msg>, spent: Msg, m: Msg)
    requires Valid(t) && Logged(t, log) && Spent(t, log, spent) && m.id == t.lastId + 1
    ensures Spent(Table(Appended(t.list, m), t.lastId + 1), log + [m], spent)
  {
    var was, now := t.list.items, Appended(t.list, m).items;
    forall i | 0 <= i < |now| && now[i].id == spent.id ensures !now[i].unread {
      assert now[i] == m || (i < |was| && now[i] == was[i]);
    }
  }

  lemma {:induction false} ClearHonest(t: Table, f: Flush, acks: seq<Ack>, log: seq<Msg>)
    requires Valid(t) && Honest(t, acks, log) && (IsFlushAll(f) ==> t.list.items == [])
    ensures Honest(Clear(t, f).0, acks, log)
  {
    KeptIsValid(t.list, f);
    var t' := Clear(t, f).0;
    assert forall i :: 0 <= i < |t'.list.items| ==> t'.list.items[i] in t.list.items;
    forall a | 0 <= a < |acks| && acks[a].answer.Ok? ensures Spent(t', log, acks[a].answer.msg) {
      assert Spent(t, log, acks[a].answer.msg);
    }
  }

  lemma {:induction false} RestartedHonest(t: Table, f: Flush)
    requires Valid(t) && t.list.items != [] && IsFlushAll(f)
    ensures Honest(Clear(t, f).0, [], [])
  {
  }

  lemma {:induction false} CommandHonest(s: System, socks: Socks, maxId: int, r: Request)
    requires Valid(s.table) && ValidTimers(s.timers) && Honest(s.table, s.recent, s.log)
    ensures var (ts, t, acks) := Command(s.timers, s.table, socks, maxId, r); Honest(t, s.recent + acks, s.log)
  {
    if Get(s.table, socks, r.sid).1.Found? {
      FetchHonest(r, s.table, socks, s.recent, s.log);
    }
  }

  lemma {:induction false} NextHonest(s: System, st: Step)
    requires Valid(s.table) && ValidTimers(s.timers) && Honest(s.table, s.recent, s.log)
    ensures var n := Next(s, st); Honest(n.table, n.recent, n.log)
  {
    hide Honest;
    hide Valid;
    hide ValidTimers;
    hide Pass;
    hide Command;
    hide Clear;
    hide Registered;
    match st.ev
    case Arrives(sid, data) => RegistHonest(s, st.socks, sid, true, data);
    case Sends(sid, data) => RegistHonest(s, st.socks, sid, false, data);
    case Asks(r) => CommandHonest(s, st.socks, st.maxId, r);
    case Passes(now) =>
      PassIsSweep(s.timers, 0, s.table, st.socks, now);
      assert s.timers.list.items[0..] == s.timers.list.items;
      SweepHonest(s.timers.list.items, s.table, st.socks, now, s.recent, s.log);
    case Flushes(f) =>
      if Restarts(s, st) {
        RestartedHonest(s.table, f);
      } else {
        ClearHonest(s.table, f, s.recent, s.log);
      }
  }

  /** Over every run, each message handed out was received, and is handed out once: since the ids last
      started again, at every moment. */
  lemma {:induction false} DeliveredAtMostOnce(steps: seq<Step>)
    ensures var s := Run(steps); Honest(s.table, s.recent, s.log)
  {
    if steps != [] {
      var n := |steps| - 1;
      DeliveredAtMostOnce(steps[..n]);
      NextHonest(Run(steps[..n]), steps[n]);
    }
  }

  // ---------- in the order of arrival ----------

  /** Socket sid, when it is there, is one that fetches its own messages only. */
  predicate Own(socks: Socks, sid: int) {
    sid > 0 && (sid in socks ==> socks[sid].kind in {Udp, Data, Raw})
  }

  /** What the requests of socket sid were given so far came in the order of arrival, and all that
      they may still be given came later. */
  ghost predicate InOrder(t: Table, acks: seq<Ack>, sid: int) {
    && (forall a, b :: 0 <= a < b < |acks| ==> GivenTo(acks[a], sid) ==> GivenTo(acks[b], sid) ==>
          acks[a].answer.msg.id < acks[b].answer.msg.id)
    && (forall a :: 0 <= a < |acks| ==> GivenTo(acks[a], sid) ==> AllLater(t, sid, acks[a].answer.msg.id))
  }

  predicate GivenTo(a: Ack, sid: int) {
    a.answer.Ok? && a.request.sid == sid
  }

  ghost predicate AllLater(t: Table, sid: int, id: int) {
    id <= t.lastId && forall i :: 0 <= i < |t.list.items| ==> Open(t.list.items[i], sid) ==> id < t.list.items[i].id
  }

  predicate Open(m: Msg, sid: int) {
    m.received && m.unread && m.sid == sid
  }

  lemma {:induction false} OtherAckInOrder(t: Table, acks: seq<Ack>, sid: int, a: Ack)
    requires InOrder(t, acks, sid) && !GivenTo(a, sid)
    ensures InOrder(t, acks + [a], sid)
  {
  }

  lemma {:induction false} FetchInOrder(r: Request, t: Table, socks: Socks, acks: seq<Ack>, sid: int)
    requires Valid(t) && InOrder(t, acks, sid) && Own(socks, sid) && Get(t, socks, r.sid).1.Found?
    ensures var (t', f) := Get(t, socks, r.sid); InOrder(t', acks + [Ack(r, Ok(f.msg))], sid)
  {
    var (t', f) := Get(t, socks, r.sid);
    var i := Oldest(t.list.items, socks, r.sid);
    if r.sid == sid {
      assert Open(t.list.items[i], sid);
      forall j | 0 <= j < |t.list.items| && Open(t'.list.items[j], sid) ensures f.msg.id < t'.list.items[j].id {
        assert j < i ==> Wants(socks, sid, t.list.items[j]);
      }
    }
    forall a | 0 <= a < |acks| && GivenTo(acks[a], sid) ensures AllLater(t', sid, acks[a].answer.msg.id) {
      assert AllLater(t, sid, acks[a].answer.msg.id);
    }
  }

  lemma {:induction false} SettleInOrder(r: Request, t: Table, socks: Socks, now: Time, acks: seq<Ack>, sid: int)
    requires Valid(t) && InOrder(t, acks, sid) && Own(socks, sid)
    ensures var d := Settle(r, t, socks, now); InOrder(d.table, acks + d.acks, sid)
  {
    hide InOrder;
    hide Valid;
    if Get(t, socks, r.sid).1.Found? {
      FetchInOrder(r, t, socks, acks, sid);
    } else {
      OtherAckInOrder(t, acks, sid, Ack(r, Timeout));
      assert acks + [] == acks;
    }
  }

  lemma {:induction false} SweepInOrder(rs: seq<Request>, t: Table, socks: Socks, now: Time, acks: seq<Ack>, sid: int)
    requires Valid(t) && InOrder(t, acks, sid) && Own(socks, sid)
    ensures var s := Sweep(rs, t, socks, now); InOrder(s.table, acks + s.acks, sid)
  {
    hide *;
    SweepUnfolds(rs, t, socks, now);
    if rs == [] {
      assert acks + [] == acks;
    } else {
      var d := Settle(rs[0], t, socks, now);
      SettleInOrder(rs[0], t, socks, now, acks, sid);
      SweepInOrder(rs[1..], d.table, socks, now, acks + d.acks, sid);
      var more := Sweep(rs[1..], d.table, socks, now).acks;
      assert acks + d.acks + more == acks + (d.acks + more);
    }
  }

  lemma {:induction false} RegistInOrder(s: System, socks: Socks, from: int, received: bool, data: Bytes, sid: int)
    requires Valid(s.table) && InOrder(s.table, s.recent, sid)
    ensures var n := Registered(s, socks, from, received, data); InOrder(n.table, n.recent, sid)
  {
    var n := Registered(s, socks, from, received, data);
    var was, now := s.table.list.items, n.table.list.items;
    assert forall i :: 0 <= i < |now| ==> now[i].id == s.table.lastId + 1 || (i < |was| && now[i] == was[i]);
    forall a | 0 <= a < |s.recent| && GivenTo(s.recent[a], sid)
      ensures AllLater(n.table, sid, s.recent[a].answer.msg.id)
    {
      assert AllLater(s.table, sid, s.recent[a].answer.msg.id);
    }
  }

  lemma {:induction false} ClearInOrder(t: Table, f: Flush, acks: seq<Ack>, sid: int)
    requires Valid(t) && InOrder(t, acks, sid) && (IsFlushAll(f) ==> t.list.items == [])
    ensures InOrder(Clear(t, f).0, acks, sid)
  {
    KeptIsValid(t.list, f);
    var t' := Clear(t, f).0;
    assert forall i :: 0 <= i < |t'.list.items| ==> t'.list.items[i] in t.list.items;
    forall a | 0 <= a < |acks| && GivenTo(acks[a], sid) ensures AllLater(t', sid, acks[a].answer.msg.id) {
      assert AllLater(t, sid, acks[a].answer.msg.id);
    }
  }

  lemma {:induction false} NothingGiven(t: Table, sid: int)
    ensures InOrder(t, [], sid)
  {
  }

  lemma {:induction false} NextInOrder(s: System, st: Step, sid: int)
    requires Valid(s.table) && ValidTimers(s.timers) && InOrder(s.table, s.recent, sid) && Own(st.socks, sid)
    ensures var n := Next(s, st); InOrder(n.table, n.recent, sid)
  {
    hide InOrder;
    hide Valid;
    hide ValidTimers;
    hide Pass;
    hide Clear;
    hide Registered;
    hide Get;
    match st.ev
    case Arrives(from, data) => RegistInOrder(s, st.socks, from, true, data, sid);
    case Sends(from, data) => RegistInOrder(s, st.socks, from, false, data, sid);
    case Asks(r) =>
      if Get(s.table, st.socks, r.sid).1.Found? {
        FetchInOrder(r, s.table, st.socks, s.recent, sid);
      } else {
        NotFoundKeeps(s.table, st.socks, r.sid);
        OtherAckInOrder(s.table, s.recent, sid, Ack(r, Refusal));
        assert s.recent + [] == s.recent;
      }
    case Passes(now) =>
      PassIsSweep(s.timers, 0, s.table, st.socks, now);
      assert s.timers.list.items[0..] == s.timers.list.items;
      SweepInOrder(s.timers.list.items, s.table, st.socks, now, s.recent, sid);
    case Flushes(f) =>
      if Restarts(s, st) {
        NothingGiven(Clear(s.table, f).0, sid);
      } else {
        ClearInOrder(s.table, f, s.recent, sid);
      }
  }

  lemma {:induction false} NotFoundKeeps(t: Table, socks: Socks, sid: int)
    requires Valid(t) && !Get(t, socks, sid).1.Found?
    ensures Get(t, socks, sid).0 == t
  {
  }

  /** Over every run, a socket that fetches its own messages only is given them in the order in which
      they arrived. */
  lemma {:induction false} DeliveredInOrder(steps: seq<Step>, sid: int)
    requires forall i :: 0 <= i < |steps| ==> Own(steps[i].socks, sid)
    ensures InOrder(Run(steps).table, Run(steps).recent, sid)
  {
    if steps != [] {
      var n := |steps| - 1;
      DeliveredInOrder(steps[..n], sid);
      NextInOrder(Run(steps[..n]), steps[n], sid);
    }
  }

  // ---------- to whom, and when ----------

  lemma {:induction false} RunOn(steps: seq<Step>, i: nat)
    requires i < |steps|
    ensures Run(steps[..i + 1]) == Next(Run(steps[..i]), steps[i])
  {
    assert steps[..i + 1][..i] == steps[..i];
  }

  /** What a step acknowledges: a command its own request, a pass requests that were waiting. */
  ghost predicate JustifiedIn(s: System, st: Step, a: Ack) {
    match st.ev
    case Asks(r) => a.request == r && !a.answer.Timeout? &&
      if a.answer.Ok? then Belongs(st.socks, r.sid, a.answer.msg)
      else r.sid != 0 && (r.sid < 0 || r.sid !in st.socks || st.socks[r.sid].kind in {Unix, UnixData})
    case Passes(now) => a.request in s.timers.list.items && Justified(a, st.socks, now)
    case _ => false
  }

  lemma {:induction false} NextIsJustified(s: System, st: Step)
    requires Valid(s.table) && ValidTimers(s.timers)
    ensures var n := Next(s, st);
      && |s.acks| <= |n.acks| && n.acks[..|s.acks|] == s.acks
      && forall a :: |s.acks| <= a < |n.acks| ==> JustifiedIn(s, st, n.acks[a])
  {
    hide Valid;
    hide ValidTimers;
    hide Pass;
    hide Get;
    hide Clear;
    hide Regist;
    hide Set;
    hide Belongs;
    match st.ev
    case Asks(r) =>
      FetchBelongs(s.table, st.socks, r.sid);
      FetchFailsIff(s.table, st.socks, r.sid);
    case Passes(now) =>
      PassIsSweep(s.timers, 0, s.table, st.socks, now);
      assert s.timers.list.items[0..] == s.timers.list.items;
      hide Sweep;
      SweepIsJustified(s.timers.list.items, s.table, st.socks, now);
    case _ =>
  }

  /** At every step of every run: a message that is handed out belongs to the request it is handed to, by
      the sockets as they are then; a request is refused only for a wrong socket, and told that its
      time is up only in a pass, when it is. */
  lemma {:induction false} EveryAnswerIsJustified(steps: seq<Step>, i: nat, a: nat)
    requires i < |steps| && |Run(steps[..i]).acks| <= a < |Run(steps[..i + 1]).acks|
    ensures JustifiedIn(Run(steps[..i]), steps[i], Run(steps[..i + 1]).acks[a])
  {
    RunOn(steps, i);
    NextIsJustified(Run(steps[..i]), steps[i]);
  }

  /** A request for which there is an unread message is answered at once, with one that is no newer. */
  lemma {:induction false} AskingIsAnswered(s: System, st: Step, i: nat)
    requires Valid(s.table) && ValidTimers(s.timers) && st.ev.Asks? && i < |s.table.list.items|
    requires s.table.list.items[i].unread && Belongs(st.socks, st.ev.request.sid, s.table.list.items[i])
    ensures var n := Next(s, st);
      && |n.acks| == |s.acks| + 1 && n.acks[|s.acks|].answer.Ok? && n.timers == s.timers
      && n.acks[|s.acks|].answer.msg.id <= s.table.list.items[i].id
  {
    var sid := st.ev.request.sid;
    FetchBelongs(s.table, st.socks, sid);
    var j := Oldest(s.table.list.items, st.socks, sid);
    assert Wants(st.socks, sid, s.table.list.items[i]);
    assert j <= i;
  }

  /** All times in the run have less than a second of microseconds. */
  ghost predicate NormalTimes(steps: seq<Step>) {
    forall i :: 0 <= i < |steps| ==>
      (steps[i].ev.Asks? ==> Normal(steps[i].ev.request.expire)) && (steps[i].ev.Passes? ==> Normal(steps[i].ev.now))
  }

  ghost predicate NormalDeadlines(rs: seq<Request>) {
    forall k :: 0 <= k < |rs| ==> Normal(rs[k].expire)
  }

  lemma {:induction false} NextIsNormal(s: System, st: Step)
    requires Valid(s.table) && ValidTimers(s.timers) && NormalDeadlines(s.timers.list.items) && NormalTimes([st])
    ensures NormalDeadlines(Next(s, st).timers.list.items)
  {
    hide Valid;
    hide Pass;
    hide Get;
    hide Clear;
    hide Regist;
    assert [st][0] == st;
    match st.ev
    case Asks(r) =>
      NothingElse(s.timers.list, r);
      hide Appended;
      var rs := Next(s, st).timers.list.items;
      forall k | 0 <= k < |rs| ensures Normal(rs[k].expire) {
        assert rs[k] in rs;
        assert rs[k] in s.timers.list.items || rs[k] == r;
      }
    case Passes(now) =>
      PassIsSweep(s.timers, 0, s.table, st.socks, now);
      assert s.timers.list.items[0..] == s.timers.list.items;
      hide Sweep;
      SweepIsJustified(s.timers.list.items, s.table, st.socks, now);
    case _ =>
  }

  lemma {:induction false} DeadlinesAreNormal(steps: seq<Step>)
    requires NormalTimes(steps)
    ensures NormalDeadlines(Run(steps).timers.list.items)
  {
    if steps != [] {
      var n := |steps| - 1;
      assert forall i :: 0 <= i < n ==> steps[..n][i] == steps[i];
      DeadlinesAreNormal(steps[..n]);
      NextIsNormal(Run(steps[..n]), steps[n]);
    }
  }

  /** Over every run, when the timer has gone off, for no request that is still waiting there is an
      unread message that belongs to it, and every deadline is ahead. */
  lemma {:induction false} NoneWaitsInVain(steps: seq<Step>, st: Step, k: nat)
    requires st.ev.Passes? && k < |Run(steps + [st]).timers.list.items|
    ensures var s := Run(steps + [st]);
      var r, ms := s.timers.list.items[k], s.table.list.items;
      && Stays(r, s.table, st.socks, st.ev.now)
      && (NormalTimes(steps + [st]) ==> Micros(r.expire) > Micros(st.ev.now))
      && forall i :: 0 <= i < |ms| ==> !(ms[i].unread && Belongs(st.socks, r.sid, ms[i]))
  {
    var s, now := Run(steps), st.ev.now;
    assert (steps + [st])[..|steps|] == steps && (steps + [st])[|steps|] == st;
    assert forall i :: 0 <= i < |steps| ==> (steps + [st])[i] == steps[i];
    if NormalTimes(steps + [st]) {
      DeadlinesAreNormal(steps);
    }
    PassIsSweep(s.timers, 0, s.table, st.socks, now);
    assert s.timers.list.items[0..] == s.timers.list.items;
    NothingMissed(s.timers.list.items, s.table, st.socks, now);
    SweepIsJustified(s.timers.list.items, s.table, st.socks, now);
    FetchBelongs(Run(steps + [st]).table, st.socks, Run(steps + [st]).timers.list.items[k].sid);
  }
}
