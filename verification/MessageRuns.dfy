/** What becomes of the messages over whole runs: each one registered is in the table, cleared or lost from
    the list; the sums agree, and it is said exactly when none is lost. */
module MessageRuns {
  import opened Wrappers
  import opened TailList
  import opened MessageTable
  import opened RecvTimer
  import opened RecvRuns

  // ---------- a message that is not unread was handed out ----------

  ghost predicate HandedOut(acks: seq<Ack>, id: int) {
    exists a :: 0 <= a < |acks| && acks[a].answer.Ok? && acks[a].answer.msg.id == id
  }

  ghost predicate Answered(t: Table, acks: seq<Ack>) {
    forall i :: 0 <= i < |t.list.items| ==> t.list.items[i].unread || HandedOut(acks, t.list.items[i].id)
  }

  lemma {:induction false} AnsweredStays(t: Table, acks: seq<Ack>, more: seq<Ack>)
    requires Answered(t, acks)
    ensures Answered(t, acks + more)
  {
    forall i | 0 <= i < |t.list.items| && !t.list.items[i].unread ensures HandedOut(acks + more, t.list.items[i].id) {
      var a :| 0 <= a < |acks| && acks[a].answer.Ok? && acks[a].answer.msg.id == t.list.items[i].id;
      assert (acks + more)[a] == acks[a];
    }
  }

  lemma {:induction false} FetchAnswered(r: Request, t: Table, socks: Socks, acks: seq<Ack>)
    requires Valid(t) && Answered(t, acks) && Get(t, socks, r.sid).1.Found?
    ensures var (t', f) := Get(t, socks, r.sid); Answered(t', acks + [Ack(r, Ok(f.msg))])
  {
    var (t', f) := Get(t, socks, r.sid);
    var all := acks + [Ack(r, Ok(f.msg))];
    AnsweredStays(t, acks, [Ack(r, Ok(f.msg))]);
    assert all[|acks|].answer.Ok? && all[|acks|].answer.msg.id == f.msg.id;
  }

  lemma {:induction false} SettleAnswered(r: Request, t: Table, socks: Socks, now: Time, acks: seq<Ack>)
    requires Valid(t) && Answered(t, acks)
    ensures var d := Settle(r, t, socks, now); Answered(d.table, acks + d.acks)
  {
    hide Answered;
    hide Valid;
    if Get(t, socks, r.sid).1.Found? {
      FetchAnswered(r, t, socks, acks);
    } else {
      AnsweredStays(t, acks, Settle(r, t, socks, now).acks);
    }
  }

  lemma {:induction false} SweepAnswered(rs: seq<Request>, t: Table, socks: Socks, now: Time, acks: seq<Ack>)
    requires Valid(t) && Answered(t, acks)
    ensures var s := Sweep(rs, t, socks, now); Answered(s.table, acks + s.acks)
  {
    hide *;
    SweepUnfolds(rs, t, socks, now);
    if rs == [] {
      assert acks + [] == acks;
    } else {
      var d := Settle(rs[0], t, socks, now);
      SettleAnswered(rs[0], t, socks, now, acks);
      SweepAnswered(rs[1..], d.table, socks, now, acks + d.acks);
      var more := Sweep(rs[1..], d.table, socks, now).acks;
      assert acks + d.acks + more == acks + (d.acks + more);
    }
  }

  lemma {:induction false} RegistAnswered(s: System, socks: Socks, sid: int, received: bool, data: Bytes)
    requires Valid(s.table) && Answered(s.table, s.recent)
    ensures var n := Registered(s, socks, sid, received, data); Answered(n.table, n.recent)
  {
    var m := Msg(s.table.lastId + 1, sid, received, true, data);
    NothingElse(s.table.list, m);
    var was, now := s.table.list.items, Appended(s.table.list, m).items;
    forall i | 0 <= i < |now| ensures now[i] == m || exists j :: 0 <= j < |was| && was[j] == now[i] {
      assert now[i] in now;
    }
  }

  lemma {:induction false} ClearAnswered(t: Table, f: Flush, acks: seq<Ack>)
    requires Valid(t) && Answered(t, acks)
    ensures Answered(Clear(t, f).0, acks)
  {
    KeptIsValid(t.list, f);
    var t' := Clear(t, f).0;
    forall i | 0 <= i < |t'.list.items|
      ensures exists j :: 0 <= j < |t.list.items| && t.list.items[j] == t'.list.items[i]
    {
      assert t'.list.items[i] in t.list.items;
    }
  }

  lemma {:induction false} NextAnswered(s: System, st: Step)
    requires Valid(s.table) && ValidTimers(s.timers) && Answered(s.table, s.recent)
    ensures var n := Next(s, st); Answered(n.table, n.recent)
  {
    hide Answered;
    hide Valid;
    hide ValidTimers;
    hide Pass;
    hide Registered;
    hide Get;
    match st.ev
    case Arrives(sid, data) => RegistAnswered(s, st.socks, sid, true, data);
    case Sends(sid, data) => RegistAnswered(s, st.socks, sid, false, data);
    case Asks(r) =>
      if Get(s.table, st.socks, r.sid).1.Found? {
        FetchAnswered(r, s.table, st.socks, s.recent);
      } else {
        NotFoundKeeps(s.table, st.socks, r.sid);
        AnsweredStays(s.table, s.recent, Command(s.timers, s.table, st.socks, st.maxId, r).2);
      }
    case Passes(now) =>
      PassIsSweep(s.timers, 0, s.table, st.socks, now);
      assert s.timers.list.items[0..] == s.timers.list.items;
      SweepAnswered(s.timers.list.items, s.table, st.socks, now, s.recent);
    case Flushes(f) =>
      ClearAnswered(s.table, f, s.recent);
      if Restarts(s, st) {
        NothingToAnswer(Next(s, st).table);
      }
  }

  lemma {:induction false} NothingToAnswer(t: Table)
    requires t.list.items == []
    ensures Answered(t, [])
  {
  }

  /** Over every run: a message in the table that is no longer unread was handed out. */
  lemma {:induction false} ReadMeansHandedOut(steps: seq<Step>)
    ensures Answered(Run(steps).table, Run(steps).recent)
  {
    if steps != [] {
      var n := |steps| - 1;
      ReadMeansHandedOut(steps[..n]);
      NextAnswered(Run(steps[..n]), steps[n]);
    }
  }

  // ---------- what becomes of the messages ----------

  function IdsOf(ms: seq<Msg>): (ids: seq<int>)
    ensures |ids| == |ms|
  {
    seq(|ms|, i requires 0 <= i < |ms| => ms[i].id)
  }

  lemma {:induction false} IdsConcat(a: seq<Msg>, b: seq<Msg>)
    ensures IdsOf(a + b) == IdsOf(a) + IdsOf(b)
  {
  }

  /** What a clear takes out. */
  function Cleared(ms: seq<Msg>, f: Flush): seq<Msg> {
    if ms == [] then []
    else
      var n := |ms| - 1;
      Cleared(ms[..n], f) + if Doomed(f, ms[n]) then [ms[n]] else []
  }

  lemma {:induction false} KeptAndCleared(ms: seq<Msg>, f: Flush)
    ensures multiset(IdsOf(Kept(ms, f))) + multiset(IdsOf(Cleared(ms, f))) == multiset(IdsOf(ms))
  {
    if ms != [] {
      var n := |ms| - 1;
      KeptAndCleared(ms[..n], f);
      IdsConcat(ms[..n], [ms[n]]);
      IdsConcat(Kept(ms[..n], f), [ms[n]]);
      IdsConcat(Cleared(ms[..n], f), [ms[n]]);
      assert ms[..n] + [ms[n]] == ms;
      assert Kept(ms[..n], f) + [] == Kept(ms[..n], f) && Cleared(ms[..n], f) + [] == Cleared(ms[..n], f);
    }
  }

  lemma {:induction false} NothingCleared(ms: seq<Msg>, f: Flush)
    requires f.sidFlag == 0 && f.idFlag == 0
    ensures Cleared(ms, f) == []
  {
    if ms != [] {
      NothingCleared(ms[..|ms| - 1], f);
    }
  }

  /** The ids of the messages cleared, and of those lost from the list, since ids last started again. */
  datatype Losses = Losses(cleared: multiset<int>, lost: multiset<int>)

  ghost function Accepted(t: Table, socks: Socks, sid: int, received: bool, data: Bytes): Option<Msg>
    requires Valid(t)
  {
    if Regist(t, socks, sid, received, data).1 then Some(Msg(t.lastId + 1, sid, received, true, data)) else None
  }

  /** The message that the step registers. */
  ghost function Registering(s: System, st: Step): Option<Msg>
    requires Valid(s.table)
  {
    match st.ev
    case Arrives(sid, data) => Accepted(s.table, st.socks, sid, true, data)
    case Sends(sid, data) => Accepted(s.table, st.socks, sid, false, data)
    case _ => None
  }

  ghost function LossesAfter(l: Losses, s: System, st: Step): Losses
    requires Valid(s.table)
  {
    if Restarts(s, st) then Losses(multiset{}, multiset{})
    else if st.ev.Flushes? then
      l.(cleared := l.cleared + multiset(IdsOf(Cleared(s.table.list.items, st.ev.flush))))
    else if Registering(s, st).Some? then
      l.(lost := l.lost + multiset(IdsOf(CutOff(s.table.list, Registering(s, st).value))))
    else l
  }

  ghost function LossesOf(steps: seq<Step>): Losses {
    if steps == [] then Losses(multiset{}, multiset{})
    else LossesAfter(LossesOf(steps[..|steps| - 1]), Run(steps[..|steps| - 1]), steps[|steps| - 1])
  }

  /** Every message registered is in the table, cleared or lost. */
  ghost predicate AllCounted(s: System, l: Losses) {
    multiset(IdsOf(s.log)) == multiset(IdsOf(s.table.list.items)) + l.cleared + l.lost
  }

  lemma {:induction false} RegistCounted(list: Tailed<Msg>, m: Msg)
    requires Linked(list)
    ensures multiset(IdsOf(Appended(list, m).items)) + multiset(IdsOf(CutOff(list, m)))
      == multiset(IdsOf(list.items)) + multiset{m.id}
    ensures multiset(IdsOf(CutOff(list, m))) == multiset{} <==> TailOk(list)
  {
    var kept := AppendingCuts(list, m);
    IdsConcat(kept, [m]);
    IdsConcat(kept, CutOff(list, m));
    assert IdsOf([m]) == [m.id];
    var ids := IdsOf(CutOff(list, m));
    assert ids != [] ==> ids[0] in multiset(ids);
  }

  lemma {:induction false} SameIds(t: Table, t': Table)
    requires OnlyReads(t, t')
    ensures IdsOf(t'.list.items) == IdsOf(t.list.items)
  {
  }

  /** Asking and passing change neither the log nor the ids in the table. */
  lemma {:induction false} AsksAndPassesKeepIds(s: System, st: Step)
    requires Valid(s.table) && ValidTimers(s.timers) && (st.ev.Asks? || st.ev.Passes?)
    ensures OnlyReads(s.table, Next(s, st).table) && Next(s, st).table.list.last == s.table.list.last
    ensures Next(s, st).log == s.log && Registering(s, st).None? && !Restarts(s, st)
  {
    hide Valid;
    hide ValidTimers;
    hide OnlyReads;
    match st.ev
    case Asks(r) =>
      FetchOnlyReads(s.table, st.socks, r.sid);
    case Passes(now) =>
      PassIsSweep(s.timers, 0, s.table, st.socks, now);
      hide Pass;
      assert s.timers.list.items[0..] == s.timers.list.items;
      SweepOnlyReads(s.timers.list.items, s.table, st.socks, now);
      SweepKeepsTail(s.timers.list.items, s.table, st.socks, now);
  }

  lemma {:induction false} FetchOnlyReads(t: Table, socks: Socks, sid: int)
    requires Valid(t)
    ensures OnlyReads(t, Get(t, socks, sid).0) && Get(t, socks, sid).0.list.last == t.list.last
  {
  }

  lemma {:induction false} SweepKeepsTail(rs: seq<Request>, t: Table, socks: Socks, now: Time)
    requires Valid(t)
    ensures Sweep(rs, t, socks, now).table.list.last == t.list.last
  {
    hide Get;
    hide Valid;
    SweepUnfolds(rs, t, socks, now);
    hide Sweep;
    if rs != [] {
      FetchOnlyReads(t, socks, rs[0].sid);
      SweepKeepsTail(rs[1..], Settle(rs[0], t, socks, now).table, socks, now);
    }
  }

  lemma {:induction false} RegisteringKeepsCount(s: System, st: Step, l: Losses)
    requires Valid(s.table) && ValidTimers(s.timers) && AllCounted(s, l) && Registering(s, st).Some?
    ensures AllCounted(Next(s, st), LossesAfter(l, s, st))
  {
    var m := Registering(s, st).value;
    assert Next(s, st).log == s.log + [m] && Next(s, st).table.list == Appended(s.table.list, m);
    assert LossesAfter(l, s, st) == l.(lost := l.lost + multiset(IdsOf(CutOff(s.table.list, m))));
    RegistCounted(s.table.list, m);
    IdsConcat(s.log, [m]);
    assert IdsOf([m]) == [m.id];
    hide *;
    SumsAgree(multiset(IdsOf(s.log)), multiset(IdsOf(s.table.list.items)), l.cleared, l.lost, multiset{m.id},
              multiset(IdsOf(Appended(s.table.list, m).items)), multiset(IdsOf(CutOff(s.table.list, m))));
  }

  lemma {:induction false} SumsAgree<T>(log: multiset<T>, t: multiset<T>, c: multiset<T>, l: multiset<T>,
      m: multiset<T>, t': multiset<T>, l': multiset<T>)
    requires log == t + c + l && t' + l' == t + m
    ensures log + m == t' + c + (l + l')
  {
    forall x ensures (log + m)[x] == (t' + c + (l + l'))[x] {
      assert log[x] == (t + c + l)[x] && (t' + l')[x] == (t + m)[x];
    }
  }

  lemma {:induction false} ClearCounted(t: Table, f: Flush)
    requires Valid(t)
    ensures IsFlushAll(f) && t.list.items != [] ==> Clear(t, f).0.list.items == []
    ensures !(IsFlushAll(f) && t.list.items != []) ==>
      multiset(IdsOf(Clear(t, f).0.list.items)) + multiset(IdsOf(Cleared(t.list.items, f)))
      == multiset(IdsOf(t.list.items))
  {
    KeptAndCleared(t.list.items, f);
    if f.sidFlag == 0 && f.idFlag == 0 {
      NothingCleared(t.list.items, f);
    }
    hide IdsOf;
    hide Valid;
  }

  lemma {:induction false} FlushingKeepsCount(s: System, st: Step, l: Losses)
    requires Valid(s.table) && ValidTimers(s.timers) && AllCounted(s, l) && st.ev.Flushes?
    ensures AllCounted(Next(s, st), LossesAfter(l, s, st))
  {
    hide Valid;
    hide ValidTimers;
    hide Clear;
    hide Cleared;
    hide IsFlushAll;
    ClearCounted(s.table, st.ev.flush);
  }

  lemma {:induction false} NextCounted(s: System, st: Step, l: Losses)
    requires Valid(s.table) && ValidTimers(s.timers) && AllCounted(s, l)
    ensures AllCounted(Next(s, st), LossesAfter(l, s, st))
  {
    if st.ev.Asks? || st.ev.Passes? {
      AsksAndPassesKeepIds(s, st);
      hide Next;
      SameIds(s.table, Next(s, st).table);
    } else if st.ev.Flushes? {
      FlushingKeepsCount(s, st, l);
    } else if Registering(s, st).Some? {
      RegisteringKeepsCount(s, st, l);
    }
  }

  /** Every message registered since ids last started again found the tail pointer right. */
  ghost predicate RegistrationsFindTheTail(steps: seq<Step>) {
    steps == [] ||
      var pre, st := steps[..|steps| - 1], steps[|steps| - 1];
      || Restarts(Run(pre), st)
      || (RegistrationsFindTheTail(pre) && (Registering(Run(pre), st).Some? ==> TailOk(Run(pre).table.list)))
  }

  /** Over every run, the messages registered since ids last started again are those in the table,
      those cleared and those lost; and none is lost exactly as long as every one that is registered
      finds the tail pointer right. */
  lemma {:induction false} MessagesAreConserved(steps: seq<Step>)
    ensures AllCounted(Run(steps), LossesOf(steps))
    ensures LossesOf(steps).lost == multiset{} <==> RegistrationsFindTheTail(steps)
  {
    if steps != [] {
      var n := |steps| - 1;
      var s := Run(steps[..n]);
      MessagesAreConserved(steps[..n]);
      NextCounted(s, steps[n], LossesOf(steps[..n]));
      LossesNow(LossesOf(steps[..n]), s, steps[n]);
    }
  }

  lemma {:induction false} LossesNow(l: Losses, s: System, st: Step)
    requires Valid(s.table)
    ensures LossesAfter(l, s, st).lost == multiset{} <==>
      Restarts(s, st) || (l.lost == multiset{} && (Registering(s, st).Some? ==> TailOk(s.table.list)))
  {
    if Registering(s, st).Some? {
      RegistCounted(s.table.list, Registering(s, st).value);
    }
  }

  // ---------- none is lost ----------

  /** The table still holds every message since ids last started again, and what is no longer unread was
      handed out. */
  ghost predicate Complete(t: Table, acks: seq<Ack>) {
    && |t.list.items| == t.lastId && (forall i :: 0 <= i < |t.list.items| ==> t.list.items[i].id == i + 1)
    && Answered(t, acks)
  }

  lemma {:induction false} IdsCountUp(ms: seq<Msg>, n: nat)
    requires Increasing(ms) && |ms| == n && forall i :: 0 <= i < n ==> 0 < ms[i].id <= n
    ensures forall i :: 0 <= i < n ==> ms[i].id == i + 1
  {
    if n > 0 {
      if n > 1 {
        assert ms[n - 2].id < ms[n - 1].id;
      }
      var front := ms[..n - 1];
      forall i | 0 <= i < |front| ensures front[i] == ms[i] && front[i].id <= n - 1 {
        assert ms[i].id < ms[n - 1].id;
      }
      IdsCountUp(front, n - 1);
    }
  }

  /** Where nothing was cleared or lost, nothing is missing. */
  lemma {:induction false} NothingIsMissing(steps: seq<Step>)
    requires LossesOf(steps) == Losses(multiset{}, multiset{})
    ensures Complete(Run(steps).table, Run(steps).recent)
  {
    var s := Run(steps);
    MessagesAreConserved(steps);
    ReadMeansHandedOut(steps);
    DeliveredAtMostOnce(steps);
    assert |s.log| == s.table.lastId;
    hide Run;
    hide LossesOf;
    hide Answered;
    hide Honest;
    var a, b := IdsOf(s.log), IdsOf(s.table.list.items);
    assert multiset(a) == multiset(b);
    assert |multiset(a)| == |a| && |multiset(b)| == |b|;
    IdsCountUp(s.table.list.items, s.table.lastId);
  }

  lemma {:induction false} FlushlessLosesNothing(steps: seq<Step>)
    requires forall i :: 0 <= i < |steps| ==> !steps[i].ev.Flushes?
    ensures RegistrationsFindTheTail(steps) && TailOk(Run(steps).table.list)
    ensures LossesOf(steps).cleared == multiset{}
  {
    if steps != [] {
      var n := |steps| - 1;
      FlushlessLosesNothing(steps[..n]);
      StaysAtTheTail(Run(steps[..n]), steps[n]);
    }
  }

  lemma {:induction false} StaysAtTheTail(s: System, st: Step)
    requires Valid(s.table) && ValidTimers(s.timers) && TailOk(s.table.list) && !st.ev.Flushes?
    ensures TailOk(Next(s, st).table.list)
  {
    if st.ev.Asks? || st.ev.Passes? {
      AsksAndPassesKeepIds(s, st);
    } else if Registering(s, st).Some? {
      AppendsIff(s.table.list, Registering(s, st).value);
    }
  }

  /** Over every run without flushes, no message is lost: each is in the table still, and one that is
      no longer unread was handed out (once, as DeliveredAtMostOnce has it). */
  lemma {:induction false} NoneIsLost(steps: seq<Step>)
    requires forall i :: 0 <= i < |steps| ==> !steps[i].ev.Flushes?
    ensures TailOk(Run(steps).table.list) && Complete(Run(steps).table, Run(steps).recent)
  {
    FlushlessLosesNothing(steps);
    MessagesAreConserved(steps);
    NothingIsMissing(steps);
  }

  // ---------- a message that gets lost ----------

  const TWO := map[1 := Sock(Udp, true, 0), 2 := Sock(Udp, true, 0)]

  /** A message of socket sid with one byte arrives. */
  function Arrival(sid: int): Step {
    Step(TWO, 2, Arrives(sid, [0]))
  }

  function Arrived(id: int, sid: int): Msg {
    Msg(id, sid, true, true, [0])
  }

  const CLEAR2 := Step(TWO, 2, Flushes(Flush(1, 0, 2, 0)))

  function Holding(l: Tailed<Msg>, log: seq<Msg>): System {
    System(Timers(Empty(), 0), Table(l, |log|), [], [], log)
  }

  lemma {:induction false} OneArrives(list: Tailed<Msg>, log: seq<Msg>, sid: int, l: Losses)
    requires Valid(Table(list, |log|)) && |log| < 3 && sid in {1, 2}
    ensures ValidTimers(Timers(Empty(), 0)) && Linked(list)
    ensures var s, m := Holding(list, log), Arrived(|log| + 1, sid);
      && Next(s, Arrival(sid)) == Holding(Appended(list, m), log + [m])
      && LossesAfter(l, s, Arrival(sid)) == l.(lost := l.lost + multiset(IdsOf(CutOff(list, m))))
  {
  }

  const FIRST := Arrived(1, 1)
  const SECOND := Arrived(2, 2)
  const THIRD := Arrived(3, 1)

  lemma {:induction false} FirstArrives(l: Losses)
    ensures ValidTimers(Timers(Empty(), 0)) && Valid(Table(Empty(), 0))
    ensures Next(Holding(Empty(), []), Arrival(1)) == Holding(Tailed([FIRST], 0), [FIRST])
    ensures LossesAfter(l, Holding(Empty(), []), Arrival(1)) == l
  {
    OneArrives(Empty(), [], 1, l);
    assert [] + [FIRST] == [FIRST];
  }

  lemma {:induction false} SecondArrives(l: Losses)
    ensures ValidTimers(Timers(Empty(), 0)) && Valid(Table(Tailed([FIRST], 0), 1))
    ensures var s := Holding(Tailed([FIRST], 0), [FIRST]);
      && Next(s, Arrival(2)) == Holding(Tailed([FIRST, SECOND], 1), [FIRST, SECOND])
      && LossesAfter(l, s, Arrival(2)) == l
  {
    OneArrives(Tailed([FIRST], 0), [FIRST], 2, l);
    assert [FIRST] + [SECOND] == [FIRST, SECOND] && [FIRST][..1] == [FIRST];
  }

  /** A clear of two messages that takes out the second one leaves the tail pointer on it. */
  lemma {:induction false} TheNewerOfTwo(t: Table, f: Flush)
    requires Valid(t) && |t.list.items| == 2 && t.list.last == 1 && f.sidFlag == 1
    requires !Doomed(f, t.list.items[0]) && Doomed(f, t.list.items[1])
    ensures Clear(t, f).0 == Table(Tailed(t.list.items[..1], -1), t.lastId)
    ensures Cleared(t.list.items, f) == t.list.items[1..]
  {
    var ms := t.list.items;
    assert ms[..1][..0] == [];
    assert Kept(ms[..1], f) == ms[..1] && Cleared(ms[..1], f) == [];
    assert Kept(ms, f) == ms[..1] && Cleared(ms, f) == [ms[1]];
  }

  lemma {:induction false} SecondIsCleared(l: Losses)
    ensures ValidTimers(Timers(Empty(), 0)) && Valid(Table(Tailed([FIRST, SECOND], 1), 2))
    ensures var s := Holding(Tailed([FIRST, SECOND], 1), [FIRST, SECOND]);
      && Next(s, CLEAR2) == Holding(Tailed([FIRST], -1), [FIRST, SECOND])
      && LossesAfter(l, s, CLEAR2) == l.(cleared := l.cleared + multiset{2})
  {
    hide Clear;
    hide Cleared;
    TheNewerOfTwo(Table(Tailed([FIRST, SECOND], 1), 2), Flush(1, 0, 2, 0));
    assert [FIRST, SECOND][..1] == [FIRST] && [FIRST, SECOND][1..] == [SECOND];
    assert IdsOf([SECOND]) == [2];
  }

  lemma {:induction false} ThirdArrives(l: Losses)
    ensures ValidTimers(Timers(Empty(), 0)) && Valid(Table(Tailed([FIRST], -1), 2))
    ensures var s := Holding(Tailed([FIRST], -1), [FIRST, SECOND]);
      && Next(s, Arrival(1)) == Holding(Tailed([FIRST], -1), [FIRST, SECOND, THIRD])
      && LossesAfter(l, s, Arrival(1)) == l.(lost := l.lost + multiset{3})
  {
    OneArrives(Tailed([FIRST], -1), [FIRST, SECOND], 1, l);
    assert [FIRST, SECOND] + [THIRD] == [FIRST, SECOND, THIRD];
    assert IdsOf([THIRD]) == [3];
  }

  lemma {:induction false} RunOn(steps: seq<Step>, i: nat)
    requires i < |steps|
    ensures Run(steps[..i + 1]) == Next(Run(steps[..i]), steps[i])
    ensures LossesOf(steps[..i + 1]) == LossesAfter(LossesOf(steps[..i]), Run(steps[..i]), steps[i])
  {
    assert steps[..i + 1][..i] == steps[..i];
  }

  lemma {:induction false} NothingRun(steps: seq<Step>)
    ensures Run(steps[..0]) == Holding(Empty(), []) && LossesOf(steps[..0]) == Losses(multiset{}, multiset{})
  {
  }

  lemma {:induction false} LostBehindTheClear(steps: seq<Step>)
    requires |steps| == 4 && steps[0] == steps[3] == Arrival(1) && steps[1] == Arrival(2) && steps[2] == CLEAR2
    ensures Run(steps) == Holding(Tailed([FIRST], -1), [FIRST, SECOND, THIRD])
    ensures LossesOf(steps) ==
      Losses(multiset{}, multiset{}).(cleared := multiset{} + multiset{2}, lost := multiset{} + multiset{3})
  {
    hide *;
    var none := Losses(multiset{}, multiset{});
    NothingRun(steps);
    FirstArrives(none);
    SecondArrives(none);
    SecondIsCleared(none);
    ThirdArrives(none.(cleared := multiset{} + multiset{2}));
    RunOn(steps, 0);
    RunOn(steps, 1);
    RunOn(steps, 2);
    RunOn(steps, 3);
    assert steps[..4] == steps;
  }

  /** Two messages arrive and the newer one is cleared; then a third arrives. It is registered under
      the next id, and neither in the table nor cleared: nobody will ever get it. */
  lemma {:induction false} NewMessageIsLost()
    ensures var steps := [Arrival(1), Arrival(2), CLEAR2, Arrival(1)];
      && Run(steps).table.list.items == [FIRST] && Run(steps).log == [FIRST, SECOND, THIRD]
      && LossesOf(steps) == Losses(multiset{2}, multiset{3})
  {
    hide Run;
    hide LossesOf;
    LostBehindTheClear([Arrival(1), Arrival(2), CLEAR2, Arrival(1)]);
    var none: multiset<int> := multiset{};
    assert none + multiset{2} == multiset{2} && none + multiset{3} == multiset{3};
  }
}
