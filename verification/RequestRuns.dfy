/** What becomes of the receive requests over whole runs: each one made is acknowledged, waiting, refused,
    dropped or lost from the list; the sums agree, and it is said exactly when none is lost. */
module RequestRuns {
  import opened Wrappers
  import opened TailList
  import opened MessageTable
  import opened RecvTimer
  import opened RecvRuns

  // ---------- what becomes of the requests ----------

  /** The request is made to wait: it has no answer, and kRecvTimerSet takes it. */
  ghost predicate Waits(s: System, st: Step)
    requires Valid(s.table) && ValidTimers(s.timers)
  {
    st.ev.Asks? && Get(s.table, st.socks, st.ev.request.sid).1 == Nothing && Set(s.timers, st.maxId, st.ev.request).1
  }

  /** The requests made, those kRecvTimerSet refused without a word, those a pass dropped because
      fetching their message was an error, and those that got lost from the list. */
  datatype Fates = Fates(made: multiset<Request>, refused: multiset<Request>, dropped: multiset<Request>,
                         lost: multiset<Request>)

  ghost function FatesIn(s: System, st: Step): Fates
    requires Valid(s.table) && ValidTimers(s.timers)
  {
    var none: multiset<Request> := multiset{};
    match st.ev
    case Asks(r) =>
      if Waits(s, st) then Fates(multiset{r}, none, none, multiset(CutOff(s.timers.list, r)))
      else if Get(s.table, st.socks, r.sid).1 == Nothing then Fates(multiset{r}, multiset{r}, none, none)
      else Fates(multiset{r}, none, none, none)
    case Passes(now) => Fates(none, none, multiset(GivenUp(s.timers.list.items, s.table, st.socks, now)), none)
    case _ => Fates(none, none, none, none)
  }

  ghost function FatesOf(steps: seq<Step>): Fates {
    if steps == [] then Fates(multiset{}, multiset{}, multiset{}, multiset{})
    else
      var n := |steps| - 1;
      var f, g := FatesOf(steps[..n]), FatesIn(Run(steps[..n]), steps[n]);
      Fates(f.made + g.made, f.refused + g.refused, f.dropped + g.dropped, f.lost + g.lost)
  }

  /** Every request made is acknowledged, waiting, refused, dropped or lost: the sums agree. */
  ghost predicate Accounted(s: System, f: Fates) {
    f.made == multiset(Asked(s.acks)) + multiset(s.timers.list.items) + f.refused + f.dropped + f.lost
  }

  lemma {:induction false} AskedConcat(a: seq<Ack>, b: seq<Ack>)
    ensures multiset(Asked(a + b)) == multiset(Asked(a)) + multiset(Asked(b))
  {
    assert Asked(a + b) == Asked(a) + Asked(b);
  }

  lemma {:induction false} AppendingLoses(l: Tailed<Request>, r: Request)
    requires Linked(l)
    ensures multiset(Appended(l, r).items) + multiset(CutOff(l, r)) == multiset(l.items) + multiset{r}
    ensures multiset(CutOff(l, r)) == multiset{} <==> TailOk(l)
  {
    var kept := AppendingCuts(l, r);
    assert CutOff(l, r) != [] ==> CutOff(l, r)[0] in multiset(CutOff(l, r));
  }

  /** The command, case by case. */
  lemma {:induction false} CommandCases(s: System, st: Step)
    requires Valid(s.table) && ValidTimers(s.timers) && st.ev.Asks?
    ensures var r, (ts, t, acks), f :=
        st.ev.request, Command(s.timers, s.table, st.socks, st.maxId, st.ev.request), FatesIn(s, st);
      && Linked(s.timers.list) && f.made == multiset{r} && f.dropped == multiset{}
      && if Waits(s, st) then
           && acks == [] && f.refused == multiset{}
           && ts.list == Appended(s.timers.list, r) && f.lost == multiset(CutOff(s.timers.list, r))
         else
           && ts == s.timers && f.lost == multiset{}
           && (acks == [] ==> f.refused == multiset{r})
           && (acks != [] ==> |acks| == 1 && acks[0].request == r && f.refused == multiset{})
  {
    hide Appended;
    hide Get;
    hide CutOff;
    hide RecvTimer.Find;
    hide Valid;
  }

  lemma {:induction false} CommandAccounts(s: System, st: Step)
    requires Valid(s.table) && ValidTimers(s.timers) && st.ev.Asks?
    ensures var (ts, t, acks) := Command(s.timers, s.table, st.socks, st.maxId, st.ev.request);
      var f := FatesIn(s, st);
      && multiset(Asked(acks)) + multiset(ts.list.items) + f.refused + f.lost == multiset(s.timers.list.items) + f.made
      && f.made == multiset{st.ev.request} && f.dropped == multiset{}
  {
    hide *;
    var r := st.ev.request;
    CommandCases(s, st);
    AppendingLoses(s.timers.list, r);
    OneAsked(Command(s.timers, s.table, st.socks, st.maxId, r).2, r);
  }

  lemma {:induction false} OneAsked(acks: seq<Ack>, r: Request)
    requires acks == [] || (|acks| == 1 && acks[0].request == r)
    ensures Asked(acks) == if acks == [] then [] else [r]
  {
  }

  lemma {:induction false} SumsAgree<T>(made: multiset<T>, a: multiset<T>, w: multiset<T>, gone: multiset<T>,
      r: multiset<T>, a': multiset<T>, w': multiset<T>, gone': multiset<T>)
    requires made == a + w + gone && a' + w' + gone' == w + r
    ensures made + r == (a + a') + w' + (gone + gone')
  {
    forall x ensures (made + r)[x] == ((a + a') + w' + (gone + gone'))[x] {
      assert made[x] == (a + w + gone)[x] && (a' + w' + gone')[x] == (w + r)[x];
    }
  }

  lemma {:induction false} AsksAccounts(s: System, st: Step, f: Fates)
    requires Valid(s.table) && ValidTimers(s.timers) && Accounted(s, f) && st.ev.Asks?
    ensures var g := FatesIn(s, st);
      Accounted(Next(s, st), Fates(f.made + g.made, f.refused + g.refused, f.dropped + g.dropped, f.lost + g.lost))
  {
    hide Valid;
    hide ValidTimers;
    hide Command;
    hide Asked;
    CommandAccounts(s, st);
    var (ts, t, acks) := Command(s.timers, s.table, st.socks, st.maxId, st.ev.request);
    var g := FatesIn(s, st);
    hide FatesIn;
    AskedConcat(s.acks, acks);
    SumsAgree(f.made, multiset(Asked(s.acks)), multiset(s.timers.list.items), f.refused + f.dropped + f.lost,
              g.made, multiset(Asked(acks)), multiset(ts.list.items), g.refused + g.lost);
  }

  lemma {:induction false} PassAccounts(s: System, st: Step, f: Fates)
    requires Valid(s.table) && ValidTimers(s.timers) && Accounted(s, f) && st.ev.Passes?
    ensures var g := FatesIn(s, st);
      Accounted(Next(s, st), Fates(f.made + g.made, f.refused + g.refused, f.dropped + g.dropped, f.lost + g.lost))
  {
    hide Valid;
    hide ValidTimers;
    hide Pass;
    hide Asked;
    hide GivenUp;
    hide Sweep;
    var rs, now := s.timers.list.items, st.ev.now;
    PassIsSweep(s.timers, 0, s.table, st.socks, now);
    assert rs[0..] == rs;
    var w := Sweep(rs, s.table, st.socks, now);
    assert rs[..0] + w.kept == w.kept;
    SweepSettlesOnce(rs, s.table, st.socks, now);
    AskedConcat(s.acks, w.acks);
    SumsAgree(f.made, multiset(Asked(s.acks)), multiset(rs), f.refused + f.dropped + f.lost, multiset{},
              multiset(Asked(w.acks)), multiset(w.kept), multiset(GivenUp(rs, s.table, st.socks, now)));
  }

  lemma {:induction false} NextAccounts(s: System, st: Step, f: Fates)
    requires Valid(s.table) && ValidTimers(s.timers) && Accounted(s, f)
    ensures var g := FatesIn(s, st);
      Accounted(Next(s, st), Fates(f.made + g.made, f.refused + g.refused, f.dropped + g.dropped, f.lost + g.lost))
  {
    hide Valid;
    hide ValidTimers;
    hide Pass;
    hide Command;
    hide Clear;
    hide Asked;
    match st.ev
    case Arrives(_, _) =>
    case Sends(_, _) =>
    case Flushes(_) =>
    case Asks(r) => AsksAccounts(s, st, f);
    case Passes(now) => PassAccounts(s, st, f);
  }

  /** Every request that was made to wait found the tail pointer right. */
  ghost predicate AllFindTheTail(steps: seq<Step>) {
    forall i :: 0 <= i < |steps| ==> Waits(Run(steps[..i]), steps[i]) ==> TailOk(Run(steps[..i]).timers.list)
  }

  /** Over every run, the requests made are those acknowledged, those waiting, those refused, those
      dropped and those lost; and none is lost exactly as long as every request that is made to wait
      finds the tail pointer right. */
  lemma {:induction false} RequestsAreConserved(steps: seq<Step>)
    ensures Accounted(Run(steps), FatesOf(steps))
    ensures FatesOf(steps).lost == multiset{} <==> AllFindTheTail(steps)
  {
    if steps == [] {
      assert Asked([]) == [];
    } else {
      var n := |steps| - 1;
      RequestsAreConserved(steps[..n]);
      NextAccounts(Run(steps[..n]), steps[n], FatesOf(steps[..n]));
      LossesIn(Run(steps[..n]), steps[n]);
      FindsTheTailToo(steps);
    }
  }

  lemma {:induction false} LossesIn(s: System, st: Step)
    requires Valid(s.table) && ValidTimers(s.timers)
    ensures FatesIn(s, st).lost == multiset{} <==> (Waits(s, st) ==> TailOk(s.timers.list))
  {
    if Waits(s, st) {
      AppendingLoses(s.timers.list, st.ev.request);
    }
  }

  lemma {:induction false} FindsTheTailToo(steps: seq<Step>)
    requires steps != []
    ensures var n := |steps| - 1;
      AllFindTheTail(steps) <==>
      AllFindTheTail(steps[..n]) && (Waits(Run(steps[..n]), steps[n]) ==> TailOk(Run(steps[..n]).timers.list))
  {
    hide Waits;
    hide TailOk;
    hide Run;
    var n := |steps| - 1;
    assert forall i :: 0 <= i <= n ==> steps[..n][..i] == steps[..i];
    assert forall i :: 0 <= i < n ==> steps[..n][i] == steps[i];
  }

  /** No request is acknowledged more often than it was made, not even counting those still waiting. */
  lemma {:induction false} AnsweredAtMostOnce(steps: seq<Step>, r: Request)
    ensures multiset(Asked(Run(steps).acks))[r] + multiset(Run(steps).timers.list.items)[r] <= FatesOf(steps).made[r]
  {
    RequestsAreConserved(steps);
    hide FatesOf;
    hide Run;
    hide Asked;
  }

  // ---------- a request that gets lost ----------

  const FOUR := map[1 := Sock(Udp, true, 0), 2 := Sock(Udp, true, 0), 3 := Sock(Udp, true, 0), 4 := Sock(Udp, true, 0)]
  const MSG := Msg(1, 2, true, true, [0])
  const UNREAD := Table(Tailed([MSG], 0), 1)
  const READ := Table(Tailed([MSG.(unread := false)], 0), 1)

  function For(sid: int): Request {
    Request(0, sid, sid, Time(10, 0))
  }

  function Ask(sid: int): Step {
    Step(FOUR, 4, Asks(For(sid)))
  }

  const ARRIVAL := Step(FOUR, 4, Arrives(2, [0]))
  const PASS := Step(FOUR, 4, Passes(Time(0, 0)))

  lemma {:induction false} RunStep(steps: seq<Step>, st: Step)
    ensures Run(steps + [st]) == Next(Run(steps), st)
    ensures FatesOf(steps + [st]).lost == FatesOf(steps).lost + FatesIn(Run(steps), st).lost
  {
    assert (steps + [st])[..|steps|] == steps;
  }

  /** In the pass, the message goes to the second of three requests, which is unlinked. */
  lemma {:induction false} MiddleIsAnswered()
    ensures ValidTimers(Timers(Tailed([For(1), For(2), For(3)], 2), 3)) && Valid(UNREAD)
    ensures Pass(Timers(Tailed([For(1), For(2), For(3)], 2), 3), 0, UNREAD, FOUR, Time(0, 0))
      == (Timers(Tailed([For(1), For(3)], 0), 2), [Ack(For(2), Ok(MSG.(unread := false)))], READ)
  {
    var ts, ts' := Timers(Tailed([For(1), For(2), For(3)], 2), 3), Timers(Tailed([For(1), For(3)], 0), 2);
    var acks := [Ack(For(2), Ok(MSG.(unread := false)))];
    SettledInTurn();
    assert RemovedAt(ts, 1) == ts';
    hide Settle;
    hide Pass;
    hide RemovedAt;
    PassUnfolds(ts, 0, UNREAD, FOUR, Time(0, 0));
    PassUnfolds(ts, 1, UNREAD, FOUR, Time(0, 0));
    PassUnfolds(ts', 1, READ, FOUR, Time(0, 0));
    PassUnfolds(ts', 2, READ, FOUR, Time(0, 0));
    var none: seq<Ack> := [];
    assert none + none == none && acks + none == acks && none + acks == acks;
  }

  lemma {:induction false} SettledInTurn()
    ensures Valid(UNREAD) && Valid(READ)
    ensures Settle(For(1), UNREAD, FOUR, Time(0, 0)) == Settled(true, [], UNREAD)
    ensures Settle(For(2), UNREAD, FOUR, Time(0, 0)) == Settled(false, [Ack(For(2), Ok(MSG.(unread := false)))], READ)
    ensures Settle(For(3), READ, FOUR, Time(0, 0)) == Settled(true, [], READ)
  {
    FirstIsOldest(UNREAD.list.items, FOUR, 1, 1);
    FirstIsOldest(UNREAD.list.items, FOUR, 2, 0);
    FirstIsOldest(READ.list.items, FOUR, 3, 1);
    assert Marked(UNREAD, 0) == READ;
  }

  /** The requests of sockets 1 to n. */
  function Firsts(n: nat): (rs: seq<Request>)
    ensures |rs| == n
  {
    seq(n, i requires 0 <= i < n => For(i + 1))
  }

  /** They wait, and no message has come yet. */
  function Waiting(n: nat): System {
    System(Timers(Tailed(Firsts(n), n - 1), n), Table(Empty(), 0), [], [], [])
  }

  lemma {:induction false} RoomForNext(n: nat)
    requires n < 4
    ensures ValidTimers(Waiting(n).timers) && TailOk(Waiting(n).timers.list)
    ensures Set(Waiting(n).timers, 4, For(n + 1)) == (Waiting(n + 1).timers, true)
  {
    var ts := Waiting(n).timers;
    assert RecvTimer.Find(Firsts(n), n + 1) == n;
    AppendsIff(ts.list, For(n + 1));
    assert Firsts(n) + [For(n + 1)] == Firsts(n + 1);
  }

  lemma {:induction false} NothingIsCutOff(l: Tailed<Request>, r: Request)
    requires Linked(l) && TailOk(l)
    ensures CutOff(l, r) == []
  {
  }

  lemma {:induction false} AskedNext(n: nat)
    requires n < 4
    ensures ValidTimers(Waiting(n).timers) && Valid(Waiting(n).table)
    ensures Next(Waiting(n), Ask(n + 1)) == Waiting(n + 1) && FatesIn(Waiting(n), Ask(n + 1)).lost == multiset{}
  {
    hide Pass;
    hide Regist;
    hide Clear;
    hide CutOff;
    hide Set;
    hide TailOk;
    hide ValidTimers;
    hide Firsts;
    RoomForNext(n);
    NothingIsCutOff(Waiting(n).timers.list, For(n + 1));
    assert Get(Waiting(n).table, FOUR, n + 1) == (Waiting(n).table, Nothing);
    assert Waiting(n).acks + [] == Waiting(n).acks;
  }

  const SERVED := Ack(For(2), Ok(MSG.(unread := false)))

  const AFTER_PASS :=
    System(Timers(Tailed([For(1), For(3)], 0), 2), READ, [SERVED], [SERVED], [MSG])

  lemma {:induction false} ArrivalIsLogged(n: nat)
    requires ValidTimers(Waiting(n).timers)
    ensures Valid(Waiting(n).table)
    ensures Next(Waiting(n), ARRIVAL) == System(Waiting(n).timers, UNREAD, [], [], [MSG])
    ensures FatesIn(Waiting(n), ARRIVAL).lost == multiset{}
  {
    assert [] + [MSG] == [MSG];
  }

  lemma {:induction false} SecondIsServed()
    ensures var s := System(Waiting(3).timers, UNREAD, [], [], [MSG]);
      && ValidTimers(s.timers) && Valid(s.table)
      && Next(s, PASS) == AFTER_PASS && FatesIn(s, PASS).lost == multiset{}
  {
    MiddleIsAnswered();
    hide Pass;
    assert Firsts(3) == [For(1), For(2), For(3)];
    assert [] + AFTER_PASS.acks == AFTER_PASS.acks;
  }

  lemma {:induction false} FourthIsAsked()
    ensures ValidTimers(AFTER_PASS.timers) && Valid(AFTER_PASS.table)
    ensures Next(AFTER_PASS, Ask(4)) == AFTER_PASS.(timers := Timers(Tailed([For(1), For(4)], 1), 3))
    ensures FatesIn(AFTER_PASS, Ask(4)).lost == multiset{For(3)}
  {
    FirstIsOldest(READ.list.items, FOUR, 4, 1);
    assert Get(READ, FOUR, 4) == (READ, Nothing);
    var l := AFTER_PASS.timers.list;
    assert l.items[..1] + [For(4)] == [For(1), For(4)] && l.items[1..] == [For(3)];
    assert AFTER_PASS.acks + [] == AFTER_PASS.acks;
  }

  lemma {:induction false} RunOn(steps: seq<Step>, i: nat)
    requires i < |steps|
    ensures Run(steps[..i + 1]) == Next(Run(steps[..i]), steps[i])
    ensures FatesOf(steps[..i + 1]).lost == FatesOf(steps[..i]).lost + FatesIn(Run(steps[..i]), steps[i]).lost
  {
    assert steps[..i + 1] == steps[..i] + [steps[i]];
    RunStep(steps[..i], steps[i]);
  }

  lemma {:induction false} NothingRun(steps: seq<Step>)
    ensures Run(steps[..0]) == Waiting(0) && FatesOf(steps[..0]).lost == multiset{}
  {
  }

  lemma {:induction false} LostOnTheWay(steps: seq<Step>)
    requires |steps| == 6 && steps[0] == Ask(1) && steps[1] == Ask(2) && steps[2] == Ask(3)
    requires steps[3] == ARRIVAL && steps[4] == PASS && steps[5] == Ask(4)
    ensures Run(steps) == AFTER_PASS.(timers := Timers(Tailed([For(1), For(4)], 1), 3))
    ensures FatesOf(steps).lost == multiset{For(3)}
  {
    hide *;
    AskedNext(0);
    AskedNext(1);
    AskedNext(2);
    AskedNext(3);
    ArrivalIsLogged(3);
    SecondIsServed();
    FourthIsAsked();
    NothingRun(steps);
    RunOn(steps, 0);
    RunOn(steps, 1);
    RunOn(steps, 2);
    RunOn(steps, 3);
    RunOn(steps, 4);
    RunOn(steps, 5);
    assert steps[..6] == steps;
  }

  /** Three requests wait and the second one is answered; then a fourth is made to wait. The third has
      been made, and is neither acknowledged nor waiting: nothing will ever answer it. */
  lemma {:induction false} WaitingRequestIsLost()
    ensures var steps := [Ask(1), Ask(2), Ask(3), ARRIVAL, PASS, Ask(4)];
      && Run(steps).timers.list.items == [For(1), For(4)] && Asked(Run(steps).acks) == [For(2)]
      && FatesOf(steps).lost == multiset{For(3)}
  {
    hide Run;
    hide FatesOf;
    LostOnTheWay([Ask(1), Ask(2), Ask(3), ARRIVAL, PASS, Ask(4)]);
    OneAsked(AFTER_PASS.acks, For(2));
  }
}
