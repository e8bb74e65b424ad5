/** CmFdMasks and CmDispatch: the select loop, whose callbacks may link and unlink descriptors while a
    pass is going on. */
module Dispatch {
  import opened Wrappers

  /** A CmReceiver; a null pointer is no Receiver. */
  type Receiver = nat

  // ---------- CmFdMasks ----------

  /** The three bit sets and the handler array. */
  datatype Masks = Masks(masks: set<int>, readies: set<int>, selected: set<int>, handlers: map<int, Receiver>)
  {
    function Attach(fd: int, h: Receiver): Masks {
      this.(masks := masks + {fd}, handlers := handlers[fd := h])
    }

    function Detach(fd: int): Masks {
      this.(masks := masks - {fd}, readies := readies - {fd}, handlers := handlers - {fd})
    }

    /** The handler to be called, if any. */
    function Notify(fd: int): Option<Receiver> {
      if fd in handlers && (fd in selected || fd in readies) then Some(handlers[fd]) else None
    }

    /** onSelects and select(nfds, ...), which reported `found`; what is not below nfds stays set. */
    function Selected(nfds: int, found: set<int>): Masks {
      this.(selected := set fd | fd in masks && (fd >= nfds || fd in found))
    }
  }

  function NoMasks(): Masks {
    Masks({}, {}, {}, map[])
  }

  // ---------- CmDispatch ----------

  datatype Which = Read | Write | Except

  /** limit is NOFILE. */
  datatype State = State(limit: nat, nfds: int, read: Masks, write: Masks, except: Masks)
  {
    function On(w: Which): Masks {
      match w
      case Read => read
      case Write => write
      case Except => except
    }

    function With(w: Which, m: Masks): State {
      match w
      case Read => this.(read := m)
      case Write => this.(write := m)
      case Except => this.(except := m)
    }

    /** Whether reduce_nfds stops at fd: it asks for a write handler twice, never for an exception one. */
    predicate Busy(fd: int) {
      fd in read.handlers || fd in write.handlers
    }
  }

  /** What link and unlink calls do, from wherever they come. */
  datatype Op = Link(fd: int, which: Which, handler: Receiver) | Unlink(fd: int, which: Which) | UnlinkAll(fd: int)

  /** Where the loop of reduce_nfds ends when it starts at k. */
  function Lowered(s: State, k: nat): (r: nat)
    ensures r <= k && forall fd :: r <= fd < k ==> !s.Busy(fd)
    ensures r > 0 ==> s.Busy(r - 1)
  {
    if k == 0 || s.Busy(k - 1) then k else Lowered(s, k - 1)
  }

  function Reduced(s: State, fd: int): State {
    if s.nfds != fd + 1 || s.nfds < 0 then s else s.(nfds := Lowered(s, s.nfds))
  }

  function Detached(s: State, fd: int): State {
    Reduced(s.(read := s.read.Detach(fd), write := s.write.Detach(fd), except := s.except.Detach(fd)), fd)
  }

  /** link and unlink abort for a descriptor that is out of range. */
  predicate InRange(s: State, op: Op) {
    0 <= op.fd < s.limit
  }

  function Do(s: State, op: Op): State {
    match op
    case Link(fd, w, h) => s.With(w, s.On(w).Attach(fd, h)).(nfds := if s.nfds < fd + 1 then fd + 1 else s.nfds)
    case Unlink(fd, w) => Reduced(s.With(w, s.On(w).Detach(fd)), fd)
    case UnlinkAll(fd) => Detached(s, fd)
  }

  // ---------- what every reachable state keeps ----------

  ghost predicate MasksOk(m: Masks, limit: int) {
    m.masks == m.handlers.Keys && forall fd :: fd in m.handlers ==> 0 <= fd < limit
  }

  /** A mask bit is set exactly where there is a handler, and every read or write handler is below nfds. */
  ghost predicate Sane(s: State) {
    && MasksOk(s.read, s.limit) && MasksOk(s.write, s.limit) && MasksOk(s.except, s.limit)
    && 0 <= s.nfds <= s.limit
    && forall fd :: s.Busy(fd) ==> fd < s.nfds
  }

  lemma {:induction false} ReducedKeepsSane(s: State, fd: int)
    requires Sane(s)
    ensures Sane(Reduced(s, fd))
    ensures s.nfds == fd + 1 ==> Reduced(s, fd).nfds == 0 || s.Busy(Reduced(s, fd).nfds - 1)
  {
    var s' := Reduced(s, fd);
    forall k | s'.Busy(k) ensures k < s'.nfds {
      assert s.Busy(k);
    }
  }

  lemma {:induction false} DoKeepsSane(s: State, op: Op)
    requires Sane(s) && InRange(s, op)
    ensures Sane(Do(s, op)) && Do(s, op).limit == s.limit
  {
    match op
    case Link(fd, w, h) =>
      var s' := Do(s, op);
      forall k | s'.Busy(k) ensures k < s'.nfds {
        assert k == fd || s.Busy(k);
      }
    case Unlink(fd, w) =>
      var d := s.With(w, s.On(w).Detach(fd));
      forall k | d.Busy(k) ensures k < d.nfds {
        assert s.Busy(k);
      }
      ReducedKeepsSane(d, fd);
    case UnlinkAll(fd) => DetachedKeepsSane(s, fd);
  }

  lemma {:induction false} DetachedKeepsSane(s: State, fd: int)
    requires Sane(s)
    ensures Sane(Detached(s, fd)) && Detached(s, fd).limit == s.limit
  {
    var d := s.(read := s.read.Detach(fd), write := s.write.Detach(fd), except := s.except.Detach(fd));
    forall k | d.Busy(k) ensures k < d.nfds {
      assert s.Busy(k);
    }
    ReducedKeepsSane(d, fd);
  }

  /** Exception handlers are below nfds, too. */
  ghost predicate Covered(s: State) {
    forall e :: e in s.except.handlers ==> e < s.nfds
  }

  /** No read or write handler stands at or above e. */
  ghost predicate Overlooked(s: State, e: int) {
    forall k :: e <= k ==> !s.Busy(k)
  }

  /** Lowering nfds, which happens for the topmost descriptor only, forgets the exception handlers that
      have no read or write handler at or above them. */
  lemma {:induction false} ReducedCoversIff(s: State, fd: int)
    requires Sane(s) && Covered(s)
    ensures Covered(Reduced(s, fd)) <==>
      s.nfds != fd + 1 || forall e :: e in s.except.handlers ==> !Overlooked(s, e)
  {
    var s' := Reduced(s, fd);
    ReducedKeepsSane(s, fd);
    forall e | e in s.except.handlers && s.nfds == fd + 1 ensures e < s'.nfds <==> !Overlooked(s, e) {
      assert e < s'.nfds ==> e <= s'.nfds - 1 && s.Busy(s'.nfds - 1);
      if k :| e <= k && s.Busy(k) {
        assert s'.Busy(k);
      }
    }
  }

  /** What a negative status does: the descriptor is taken off all masks. */
  lemma {:induction false} DetachedCoversIff(s: State, fd: int)
    requires Sane(s) && Covered(s)
    ensures var s' := Detached(s, fd);
      Covered(s') <==> s.nfds != fd + 1 || forall e :: e in s'.except.handlers ==> !Overlooked(s', e)
  {
    var d := s.(read := s.read.Detach(fd), write := s.write.Detach(fd), except := s.except.Detach(fd));
    forall k | d.Busy(k) ensures k < d.nfds {
      assert s.Busy(k);
    }
    ReducedCoversIff(d, fd);
    SameHandlers(d, Reduced(d, fd));
  }

  lemma {:induction false} SameHandlers(s: State, s': State)
    requires s'.read == s.read && s'.write == s.write
    ensures forall e :: Overlooked(s', e) <==> Overlooked(s, e)
  {
    assert forall k :: s'.Busy(k) <==> s.Busy(k);
  }

  /** When exception handlers stay covered: unless a call unlinks from the topmost descriptor, and then
      exactly if each that is left has a read or write handler at or above it. */
  lemma {:induction false} ExceptCoveredIff(s: State, op: Op)
    requires Sane(s) && Covered(s) && InRange(s, op)
    ensures var s' := Do(s, op);
      Covered(s') <==> op.Link? || s.nfds != op.fd + 1 || forall e :: e in s'.except.handlers ==> !Overlooked(s', e)
  {
    match op
    case Link(fd, w, h) =>
    case Unlink(fd, w) =>
      var d := s.With(w, s.On(w).Detach(fd));
      forall k | d.Busy(k) ensures k < d.nfds {
        assert s.Busy(k);
      }
      ReducedCoversIff(d, fd);
      SameHandlers(d, Reduced(d, fd));
    case UnlinkAll(fd) => DetachedCoversIff(s, fd);
  }

  /** An exception handler alone: unlinking the descriptor above it puts it out of the loop's reach. */
  lemma {:induction false} ExceptHandlerIsForgotten(limit: nat)
    requires limit >= 6
    ensures var s := Do(Do(State(limit, 0, NoMasks(), NoMasks(), NoMasks()), Link(3, Except, 1)), Link(5, Read, 2));
      var s' := Do(s, Unlink(5, Read));
      Sane(s') && 3 in s'.except.handlers && s'.nfds == 0
  {
    var s0 := State(limit, 0, NoMasks(), NoMasks(), NoMasks());
    var s1 := Do(s0, Link(3, Except, 1));
    var s2 := Do(s1, Link(5, Read, 2));
    DoKeepsSane(s0, Link(3, Except, 1));
    DoKeepsSane(s1, Link(5, Read, 2));
    DoKeepsSane(s2, Unlink(5, Read));
    var s3 := Do(s2, Unlink(5, Read));
    assert forall k :: !s3.Busy(k);
    ReducedKeepsSane(s2.With(Read, s2.read.Detach(5)), 5);
  }

  // ---------- one pass of notify ----------

  /** What a callback does before it returns its status. */
  datatype Reply = Reply(ops: seq<Op>, status: int)

  /** The history: links and unlinks, callbacks made, what they returned, and connections that
      checkConnections dropped. */
  datatype Entry =
    | Did(op: Op)
    | Called(fd: int, which: Which, handler: Receiver)
    | Returned(fd: int, which: Which, status: int)
    | Dropped(fd: int)

  /** The dispatcher and the history; `turn` counts callbacks, and world(k) is what the k-th one does. */
  datatype System = System(st: State, log: seq<Entry>, turn: nat)

  type World = nat -> Reply

  ghost predicate Proper(limit: nat, world: World) {
    forall k, i :: 0 <= i < |world(k).ops| ==> 0 <= world(k).ops[i].fd < limit
  }

  function Perform(s: System, op: Op): System {
    s.(st := Do(s.st, op), log := s.log + [Did(op)])
  }

  function PerformAll(s: System, ops: seq<Op>): System
    decreases |ops|
  {
    if ops == [] then s else PerformAll(Perform(s, ops[0]), ops[1..])
  }

  /** The callback: everything between its call and its return. */
  function Callback(s: System, fd: int, w: Which, h: Receiver, r: Reply): System {
    var after := PerformAll(s.(log := s.log + [Called(fd, w, h)], turn := s.turn + 1), r.ops);
    after.(log := after.log + [Returned(fd, w, r.status)])
  }

  function ClearedReady(s: State, fd: int, w: Which): State {
    s.With(w, s.On(w).(readies := s.On(w).readies - {fd}))
  }

  function SetReady(s: State, fd: int, w: Which): State {
    s.With(w, s.On(w).(readies := s.On(w).readies + {fd}))
  }

  /** notify(fd, mask, func). No handler counts as status 0. */
  function Notified(s: System, fd: int, w: Which, world: World): System {
    match s.st.On(w).Notify(fd)
    case None => s.(st := ClearedReady(s.st, fd, w))
    case Some(h) =>
      var r := world(s.turn);
      var after := Callback(s, fd, w, h, r);
      if r.status < 0 then after.(st := Detached(after.st, fd))
      else if r.status == 0 then after.(st := ClearedReady(after.st, fd, w))
      else after.(st := SetReady(after.st, fd, w))
  }

  function NotifiedAll(s: System, fd: int, world: World): System {
    Notified(Notified(Notified(s, fd, Read, world), fd, Write, world), fd, Except, world)
  }

  /** notify() from descriptor i on. (nfds never exceeds the limit.) */
  function Pass(s: System, i: nat, world: World): System
    decreases s.st.limit - i, 0
  {
    if i >= s.st.nfds || i >= s.st.limit then s
    else
      var next := NotifiedAll(s, i, world);
      if next.st.limit == s.st.limit then Pass(next, i + 1, world) else next
  }

  // ---------- waitFor ----------

  /** A select call that failed: by a signal, or because some descriptors are bad. */
  datatype Failure = Interrupted | Bad(fds: set<int>)

  /** checkConnections looks at the read masks below k only, and leaves nfds alone. */
  function Checked(s: System, k: nat, bad: set<int>): System {
    if k == 0 then s
    else
      var p := Checked(s, k - 1, bad);
      var m, fd := p.st.read, k - 1;
      if fd !in m.handlers then p.(st := p.st.(read := m.(masks := m.masks - {fd}, readies := m.readies - {fd})))
      else if fd in bad then p.(st := p.st.(read := m.Detach(fd)), log := p.log + [Dropped(fd)])
      else p
  }

  function Waited(s: System, fails: seq<Failure>): System
    decreases |fails|
  {
    if fails == [] then s
    else
      match fails[0]
      case Interrupted => Waited(s, fails[1..])
      case Bad(fds) => Waited(if s.st.nfds >= 0 then Checked(s, s.st.nfds, fds) else s, fails[1..])
  }

  /** The descriptors that the select call that succeeds reports. */
  datatype Found = Found(read: set<int>, write: set<int>, except: set<int>)

  function Selected(s: System, f: Found): System {
    var st := s.st;
    s.(st := st.(read := st.read.Selected(st.nfds, f.read), write := st.write.Selected(st.nfds, f.write),
                 except := st.except.Selected(st.nfds, f.except)))
  }

  function Dispatched(s: System, fails: seq<Failure>, f: Found, world: World): System {
    Pass(Selected(Waited(s, fails), f), 0, world)
  }

  /** When it holds, select is told not to wait. */
  predicate AnyReady(st: State) {
    st.read.readies != {} || st.write.readies != {} || st.except.readies != {}
  }

  // ---------- the handlers are what the history says ----------

  function Handler(st: State, fd: int, w: Which): Option<Receiver> {
    if fd in st.On(w).handlers then Some(st.On(w).handlers[fd]) else None
  }

  /** Who is linked to (fd, w) after entry e, by whom it was linked before. */
  function Held(e: Entry, before: Option<Receiver>, fd: int, w: Which): Option<Receiver> {
    match e
    case Did(Link(f, v, h)) => if f == fd && v == w then Some(h) else before
    case Did(Unlink(f, v)) => if f == fd && v == w then None else before
    case Did(UnlinkAll(f)) => if f == fd then None else before
    case Returned(f, _, status) => if f == fd && status < 0 then None else before
    case Dropped(f) => if f == fd && w == Read then None else before
    case Called(_, _, _) => before
  }

  function Holder(log: seq<Entry>, fd: int, w: Which): Option<Receiver> {
    if log == [] then None else Held(log[|log| - 1], Holder(log[..|log| - 1], fd, w), fd, w)
  }

  lemma {:induction false} HolderStep(log: seq<Entry>, e: Entry, fd: int, w: Which)
    ensures Holder(log + [e], fd, w) == Held(e, Holder(log, fd, w), fd, w)
  {
    assert (log + [e])[..|log|] == log;
  }

  /** Masks and history agree, and every callback so far went to the receiver that was linked then. */
  ghost predicate Faithful(s: System) {
    && (forall fd, w :: Handler(s.st, fd, w) == Holder(s.log, fd, w))
    && (forall b :: 0 <= b < |s.log| ==> s.log[b].Called? ==>
          Holder(s.log[..b], s.log[b].fd, s.log[b].which) == Some(s.log[b].handler))
  }

  ghost predicate Good(s: System) {
    Sane(s.st) && Faithful(s)
  }

  lemma {:induction false} LogGrows(log: seq<Entry>, e: Entry)
    requires forall b :: 0 <= b < |log| ==> log[b].Called? ==>
        Holder(log[..b], log[b].fd, log[b].which) == Some(log[b].handler)
    requires e.Called? ==> Holder(log, e.fd, e.which) == Some(e.handler)
    ensures var l := log + [e];
      forall b :: 0 <= b < |l| ==> l[b].Called? ==> Holder(l[..b], l[b].fd, l[b].which) == Some(l[b].handler)
  {
    var l := log + [e];
    forall b | 0 <= b < |l| && l[b].Called? ensures Holder(l[..b], l[b].fd, l[b].which) == Some(l[b].handler) {
      assert b < |log| ==> l[..b] == log[..b] && l[b] == log[b];
      assert b == |log| ==> l[..b] == log;
    }
  }

  /** An entry is added, and the handlers change as it says. */
  lemma {:induction false} FaithfulStep(s: System, st: State, e: Entry)
    requires Faithful(s) && (e.Called? ==> Handler(s.st, e.fd, e.which) == Some(e.handler))
    requires forall fd, w :: Handler(st, fd, w) == Held(e, Handler(s.st, fd, w), fd, w)
    ensures Faithful(s.(st := st, log := s.log + [e]))
  {
    LogGrows(s.log, e);
    forall fd, w ensures Handler(st, fd, w) == Holder(s.log + [e], fd, w) {
      HolderStep(s.log, e, fd, w);
    }
  }

  lemma {:induction false} HandlerAfter(st: State, op: Op, fd: int, w: Which)
    ensures Handler(Do(st, op), fd, w) == Held(Did(op), Handler(st, fd, w), fd, w)
  {
    hide Lowered;
    match op
    case Link(f, v, h) =>
    case Unlink(f, v) =>
    case UnlinkAll(f) =>
  }

  lemma {:induction false} PerformGood(s: System, op: Op)
    requires Good(s) && InRange(s.st, op)
    ensures Good(Perform(s, op)) && Perform(s, op).st.limit == s.st.limit
  {
    DoKeepsSane(s.st, op);
    hide Sane;
    hide Do;
    hide Handler;
    hide Faithful;
    forall fd, w ensures Handler(Do(s.st, op), fd, w) == Held(Did(op), Handler(s.st, fd, w), fd, w) {
      HandlerAfter(s.st, op, fd, w);
    }
    FaithfulStep(s, Do(s.st, op), Did(op));
  }

  lemma {:induction false} PerformAllGood(s: System, ops: seq<Op>)
    requires Good(s) && forall i :: 0 <= i < |ops| ==> InRange(s.st, ops[i])
    ensures Good(PerformAll(s, ops)) && PerformAll(s, ops).st.limit == s.st.limit
    decreases |ops|
  {
    if ops != [] {
      PerformGood(s, ops[0]);
      hide Good;
      PerformAllGood(Perform(s, ops[0]), ops[1..]);
    }
  }

  lemma {:induction false} CalledGood(s: System, fd: int, w: Which, h: Receiver)
    requires Good(s) && Handler(s.st, fd, w) == Some(h)
    ensures Good(s.(log := s.log + [Called(fd, w, h)], turn := s.turn + 1))
  {
    FaithfulStep(s, s.st, Called(fd, w, h));
  }

  lemma {:induction false} ReadinessGood(s: System, fd: int, w: Which)
    requires Good(s)
    ensures Good(s.(st := ClearedReady(s.st, fd, w))) && Good(s.(st := SetReady(s.st, fd, w)))
  {
    var c, r := ClearedReady(s.st, fd, w), SetReady(s.st, fd, w);
    forall k ensures c.Busy(k) == s.st.Busy(k) && r.Busy(k) == s.st.Busy(k) {
    }
    forall k, v ensures Handler(c, k, v) == Handler(s.st, k, v) && Handler(r, k, v) == Handler(s.st, k, v) {
    }
  }

  /** The callback has returned: with a negative status everything on fd is unlinked. */
  lemma {:induction false} ReturnedGood(s: System, fd: int, w: Which, status: int)
    requires Good(s)
    ensures var log := s.log + [Returned(fd, w, status)];
      if status < 0 then Good(s.(st := Detached(s.st, fd), log := log)) else Good(s.(log := log))
    ensures Detached(s.st, fd).limit == s.st.limit
  {
    var st := if status < 0 then Detached(s.st, fd) else s.st;
    DetachedKeepsSane(s.st, fd);
    forall k, v ensures Handler(st, k, v) == Held(Returned(fd, w, status), Handler(s.st, k, v), k, v) {
    }
    FaithfulStep(s, st, Returned(fd, w, status));
  }

  lemma {:induction false} NotifiedGood(s: System, fd: int, w: Which, world: World)
    requires Good(s) && Proper(s.st.limit, world)
    ensures Good(Notified(s, fd, w, world)) && Notified(s, fd, w, world).st.limit == s.st.limit
  {
    hide Good;
    hide PerformAll;
    hide Detached;
    match s.st.On(w).Notify(fd)
    case None => ReadinessGood(s, fd, w);
    case Some(h) =>
      CalledGood(s, fd, w, h);
      var s1 := s.(log := s.log + [Called(fd, w, h)], turn := s.turn + 1);
      var r := world(s.turn);
      PerformAllGood(s1, r.ops);
      var s2 := PerformAll(s1, r.ops);
      ReturnedGood(s2, fd, w, r.status);
      if r.status >= 0 {
        ReadinessGood(s2.(log := s2.log + [Returned(fd, w, r.status)]), fd, w);
      }
  }

  lemma {:induction false} NotifiedAllGood(s: System, fd: int, world: World)
    requires Good(s) && Proper(s.st.limit, world)
    ensures Good(NotifiedAll(s, fd, world)) && NotifiedAll(s, fd, world).st.limit == s.st.limit
  {
    hide Good;
    hide Notified;
    NotifiedGood(s, fd, Read, world);
    var s1 := Notified(s, fd, Read, world);
    NotifiedGood(s1, fd, Write, world);
    NotifiedGood(Notified(s1, fd, Write, world), fd, Except, world);
  }

  lemma {:induction false} PassGood(s: System, i: nat, world: World)
    requires Good(s) && Proper(s.st.limit, world)
    ensures Good(Pass(s, i, world)) && Pass(s, i, world).st.limit == s.st.limit
    decreases s.st.limit - i
  {
    hide Good;
    hide NotifiedAll;
    if i < s.st.nfds && i < s.st.limit {
      NotifiedAllGood(s, i, world);
      PassGood(NotifiedAll(s, i, world), i + 1, world);
    }
  }

  lemma {:induction false} ClearedGood(s: System, fd: int)
    requires Good(s) && fd !in s.st.read.handlers
    ensures var m := s.st.read;
      Good(s.(st := s.st.(read := m.(masks := m.masks - {fd}, readies := m.readies - {fd}))))
  {
    var m := s.st.read;
    var st := s.st.(read := m.(masks := m.masks - {fd}, readies := m.readies - {fd}));
    forall k ensures st.Busy(k) == s.st.Busy(k) {
    }
    forall k, v ensures Handler(st, k, v) == Handler(s.st, k, v) {
    }
  }

  lemma {:induction false} DroppedGood(s: System, fd: int)
    requires Good(s)
    ensures Good(s.(st := s.st.(read := s.st.read.Detach(fd)), log := s.log + [Dropped(fd)]))
  {
    var st := s.st.(read := s.st.read.Detach(fd));
    forall k | st.Busy(k) ensures k < st.nfds {
      assert s.st.Busy(k);
    }
    forall k, v ensures Handler(st, k, v) == Held(Dropped(fd), Handler(s.st, k, v), k, v) {
    }
    FaithfulStep(s, st, Dropped(fd));
  }

  lemma {:induction false} CheckedGood(s: System, k: nat, bad: set<int>)
    requires Good(s)
    ensures Good(Checked(s, k, bad)) && Checked(s, k, bad).st.limit == s.st.limit
    ensures Checked(s, k, bad).st.nfds == s.st.nfds
  {
    if k > 0 {
      CheckedGood(s, k - 1, bad);
      var p := Checked(s, k - 1, bad);
      hide Good;
      if k - 1 !in p.st.read.handlers {
        ClearedGood(p, k - 1);
      } else if k - 1 in bad {
        DroppedGood(p, k - 1);
      }
    }
  }

  lemma {:induction false} WaitedGood(s: System, fails: seq<Failure>)
    requires Good(s)
    ensures Good(Waited(s, fails)) && Waited(s, fails).st.limit == s.st.limit
    decreases |fails|
  {
    if fails != [] {
      if fails[0].Bad? {
        CheckedGood(s, s.st.nfds, fails[0].fds);
        WaitedGood(Checked(s, s.st.nfds, fails[0].fds), fails[1..]);
      } else {
        WaitedGood(s, fails[1..]);
      }
    }
  }

  lemma {:induction false} SelectedGood(s: System, f: Found)
    requires Good(s)
    ensures Good(Selected(s, f)) && Selected(s, f).st.limit == s.st.limit
  {
    var st := Selected(s, f).st;
    forall k ensures st.Busy(k) == s.st.Busy(k) {
    }
    forall k, v ensures Handler(st, k, v) == Handler(s.st, k, v) {
    }
  }

  lemma {:induction false} DispatchedGood(s: System, fails: seq<Failure>, f: Found, world: World)
    requires Good(s) && Proper(s.st.limit, world)
    ensures Good(Dispatched(s, fails, f, world)) && Dispatched(s, fails, f, world).st.limit == s.st.limit
  {
    hide Good;
    WaitedGood(s, fails);
    SelectedGood(Waited(s, fails), f);
    PassGood(Selected(Waited(s, fails), f), 0, world);
  }

  // ---------- runs ----------

  /** A link or unlink from outside a pass, or one call of dispatch. */
  datatype Event = Outside(op: Op) | Turn(fails: seq<Failure>, found: Found)

  function Run(limit: nat, evs: seq<Event>, world: World): System {
    if evs == [] then System(State(limit, 0, NoMasks(), NoMasks(), NoMasks()), [], 0)
    else
      var s := Run(limit, evs[..|evs| - 1], world);
      match evs[|evs| - 1]
      case Outside(op) => Perform(s, op)
      case Turn(fails, found) => Dispatched(s, fails, found, world)
  }

  /** In every reachable state, under every interleaving of links, unlinks and callbacks: masks and
      handlers agree, read and write handlers are below nfds, and the handlers are the receivers last
      linked; and every callback went to the receiver that was linked at that moment. */
  lemma {:induction false} RunIsGood(limit: nat, evs: seq<Event>, world: World)
    requires Proper(limit, world) && forall i :: 0 <= i < |evs| ==> evs[i].Outside? ==> 0 <= evs[i].op.fd < limit
    ensures Good(Run(limit, evs, world)) && Run(limit, evs, world).st.limit == limit
  {
    if evs != [] {
      var n := |evs| - 1;
      RunIsGood(limit, evs[..n], world);
      var s := Run(limit, evs[..n], world);
      hide Good;
      match evs[n]
      case Outside(op) => PerformGood(s, op);
      case Turn(fails, found) => DispatchedGood(s, fails, found, world);
    }
  }

  /** Entry e takes away whatever is linked to (fd, w). */
  predicate Cuts(e: Entry, fd: int, w: Which) {
    match e
    case Did(Unlink(f, v)) => f == fd && v == w
    case Did(UnlinkAll(f)) => f == fd
    case Returned(f, _, status) => f == fd && status < 0
    case Dropped(f) => f == fd && w == Read
    case _ => false
  }

  lemma {:induction false} LinkedSince(log: seq<Entry>, a: nat, fd: int, w: Which, h: Receiver) returns (c: nat)
    requires a < |log| && Cuts(log[a], fd, w) && Holder(log, fd, w) == Some(h)
    ensures a < c < |log| && log[c] == Did(Link(fd, w, h))
  {
    var n := |log| - 1;
    if log[n] == Did(Link(fd, w, h)) {
      c := n;
    } else {
      assert Held(log[n], Holder(log[..n], fd, w), fd, w) == Some(h);
      c := LinkedSince(log[..n], a, fd, w, h);
    }
  }

  /** After a callback on fd returned a negative status (or fd was unlinked), there is no callback on fd
      for any of the three conditions unless a handler was linked again in between. */
  lemma {:induction false} NoCallAfterCut(limit: nat, evs: seq<Event>, world: World, a: nat, b: nat) returns (c: nat)
    requires Proper(limit, world) && forall i :: 0 <= i < |evs| ==> evs[i].Outside? ==> 0 <= evs[i].op.fd < limit
    requires var log := Run(limit, evs, world).log;
      a < b < |log| && log[b].Called? && Cuts(log[a], log[b].fd, log[b].which)
    ensures var log := Run(limit, evs, world).log;
      a < c < b && log[c] == Did(Link(log[b].fd, log[b].which, log[b].handler))
  {
    RunIsGood(limit, evs, world);
    var log := Run(limit, evs, world).log;
    c := LinkedSince(log[..b], a, log[b].fd, log[b].which, log[b].handler);
  }

  // ---------- a positive status is a promise ----------

  /** (fd, w) is linked and ready (or, for a promise made by select, selected), or has been called or cut
      since entry a. */
  ghost predicate Promised(s: System, a: nat, fd: int, w: Which, bySelect: bool := false) {
    || (fd in s.st.On(w).handlers && fd in if bySelect then s.st.On(w).selected else s.st.On(w).readies)
    || Kept(s.log, a, fd, w)
  }

  ghost predicate Kept(log: seq<Entry>, a: nat, fd: int, w: Which) {
    exists b :: a <= b < |log| && ((log[b].Called? && log[b].fd == fd && log[b].which == w) || Cuts(log[b], fd, w))
  }

  lemma {:induction false} KeptStays(log: seq<Entry>, more: seq<Entry>, a: nat, fd: int, w: Which)
    requires Kept(log, a, fd, w)
    ensures Kept(log + more, a, fd, w)
  {
    var b :| a <= b < |log| && ((log[b].Called? && log[b].fd == fd && log[b].which == w) || Cuts(log[b], fd, w));
    assert (log + more)[b] == log[b];
  }

  lemma {:induction false} KeptNow(log: seq<Entry>, e: Entry, a: nat, fd: int, w: Which)
    requires a <= |log| && ((e.Called? && e.fd == fd && e.which == w) || Cuts(e, fd, w))
    ensures Kept(log + [e], a, fd, w)
  {
    assert (log + [e])[|log|] == e;
  }

  lemma {:induction false} PerformPromised(s: System, op: Op, a: nat, fd: int, w: Which,
      bySelect: bool := false)
    requires Promised(s, a, fd, w, bySelect) && a <= |s.log|
    ensures Promised(Perform(s, op), a, fd, w, bySelect) && a <= |Perform(s, op).log|
  {
    if Kept(s.log, a, fd, w) {
      KeptStays(s.log, [Did(op)], a, fd, w);
    } else if Cuts(Did(op), fd, w) {
      KeptNow(s.log, Did(op), a, fd, w);
    } else {
      OpKeepsReady(s.st, op, fd, w);
    }
  }

  lemma {:induction false} OpKeepsReady(st: State, op: Op, fd: int, w: Which)
    requires fd in st.On(w).handlers && !Cuts(Did(op), fd, w)
    ensures fd in Do(st, op).On(w).handlers && Do(st, op).On(w).selected == st.On(w).selected
    ensures fd in st.On(w).readies ==> fd in Do(st, op).On(w).readies
  {
    hide Lowered;
    match op
    case Link(f, v, h) =>
    case Unlink(f, v) =>
    case UnlinkAll(f) =>
  }

  lemma {:induction false} PerformAllPromised(s: System, ops: seq<Op>, a: nat, fd: int, w: Which,
      bySelect: bool := false)
    requires Promised(s, a, fd, w, bySelect) && a <= |s.log|
    ensures Promised(PerformAll(s, ops), a, fd, w, bySelect) && a <= |PerformAll(s, ops).log|
    decreases |ops|
  {
    if ops != [] {
      PerformPromised(s, ops[0], a, fd, w, bySelect);
      hide Promised;
      PerformAllPromised(Perform(s, ops[0]), ops[1..], a, fd, w, bySelect);
    }
  }

  lemma {:induction false} CallbackPromised(s: System, k: int, v: Which, h: Receiver, r: Reply, a: nat, fd: int,
      w: Which, bySelect: bool := false)
    requires Promised(s, a, fd, w, bySelect) && a <= |s.log|
    ensures Promised(Callback(s, k, v, h, r), a, fd, w, bySelect) && a <= |Callback(s, k, v, h, r).log|
    ensures k == fd && (v == w || r.status < 0) ==> Kept(Callback(s, k, v, h, r).log, a, fd, w)
  {
    var s1 := s.(log := s.log + [Called(k, v, h)], turn := s.turn + 1);
    if Kept(s.log, a, fd, w) {
      KeptStays(s.log, [Called(k, v, h)], a, fd, w);
    }
    if k == fd && v == w {
      KeptNow(s.log, Called(k, v, h), a, fd, w);
      PerformAllKept(s1, r.ops, a, fd, w);
    }
    PerformAllPromised(s1, r.ops, a, fd, w, bySelect);
    var s2 := PerformAll(s1, r.ops);
    if Kept(s2.log, a, fd, w) {
      KeptStays(s2.log, [Returned(k, v, r.status)], a, fd, w);
    }
    if Cuts(Returned(k, v, r.status), fd, w) {
      KeptNow(s2.log, Returned(k, v, r.status), a, fd, w);
    }
  }

  lemma {:induction false} PerformAllKept(s: System, ops: seq<Op>, a: nat, fd: int, w: Which)
    requires Kept(s.log, a, fd, w)
    ensures Kept(PerformAll(s, ops).log, a, fd, w)
    decreases |ops|
  {
    if ops != [] {
      KeptStays(s.log, [Did(ops[0])], a, fd, w);
      PerformAllKept(Perform(s, ops[0]), ops[1..], a, fd, w);
    }
  }

  lemma {:induction false} NotifiedPromised(s: System, k: int, v: Which, world: World, a: nat, fd: int, w: Which,
      bySelect: bool := false)
    requires Promised(s, a, fd, w, bySelect) && a <= |s.log|
    ensures var n := Notified(s, k, v, world);
      && Promised(n, a, fd, w, bySelect) && a <= |n.log| && (k == fd && v == w ==> Kept(n.log, a, fd, w))
      && (Kept(s.log, a, fd, w) ==> Kept(n.log, a, fd, w))
  {
    match s.st.On(v).Notify(k)
    case None =>
    case Some(h) =>
      var r := world(s.turn);
      CallbackPromised(s, k, v, h, r, a, fd, w, bySelect);
      if Kept(s.log, a, fd, w) {
        KeptStays(s.log, [Called(k, v, h)], a, fd, w);
        var s1 := s.(log := s.log + [Called(k, v, h)], turn := s.turn + 1);
        PerformAllKept(s1, r.ops, a, fd, w);
        KeptStays(PerformAll(s1, r.ops).log, [Returned(k, v, r.status)], a, fd, w);
      }
  }

  lemma {:induction false} NotifiedAllPromised(s: System, k: int, world: World, a: nat, fd: int, w: Which,
      bySelect: bool := false)
    requires Promised(s, a, fd, w, bySelect) && a <= |s.log|
    ensures var n := NotifiedAll(s, k, world);
      && Promised(n, a, fd, w, bySelect) && a <= |n.log|
      && (k == fd || Kept(s.log, a, fd, w) ==> Kept(n.log, a, fd, w))
  {
    hide Promised;
    hide Kept;
    hide Notified;
    NotifiedPromised(s, k, Read, world, a, fd, w, bySelect);
    var s1 := Notified(s, k, Read, world);
    NotifiedPromised(s1, k, Write, world, a, fd, w, bySelect);
    NotifiedPromised(Notified(s1, k, Write, world), k, Except, world, a, fd, w, bySelect);
  }

  /** A pass that has not come to fd yet keeps the promise made for a handler there; for an exception
      handler, unless it has lowered nfds below it. */
  lemma {:induction false} PassKeepsPromise(s: System, i: nat, world: World, a: nat, fd: int, w: Which,
      bySelect: bool := false)
    requires Good(s) && Proper(s.st.limit, world) && Promised(s, a, fd, w, bySelect) && a <= |s.log|
    requires i <= fd || Kept(s.log, a, fd, w)
    requires w == Except ==> fd < Pass(s, i, world).st.nfds
    ensures Kept(Pass(s, i, world).log, a, fd, w)
    decreases s.st.limit - i
  {
    hide NotifiedAll;
    if !Kept(s.log, a, fd, w) {
      assert w != Except ==> s.st.Busy(fd);
    }
    if i < s.st.nfds && i < s.st.limit {
      NotifiedAllGood(s, i, world);
      NotifiedAllPromised(s, i, world, a, fd, w, bySelect);
      hide Good;
      hide Promised;
      hide Kept;
      PassKeepsPromise(NotifiedAll(s, i, world), i + 1, world, a, fd, w, bySelect);
    }
  }

  lemma {:induction false} PassPromised(s: System, i: nat, world: World, a: nat, fd: int, w: Which)
    requires Promised(s, a, fd, w) && a <= |s.log|
    ensures Promised(Pass(s, i, world), a, fd, w) && a <= |Pass(s, i, world).log|
    decreases s.st.limit - i
  {
    hide NotifiedAll;
    hide Promised;
    hide Kept;
    if i < s.st.nfds && i < s.st.limit {
      NotifiedAllPromised(s, i, world, a, fd, w);
      var next := NotifiedAll(s, i, world);
      if next.st.limit == s.st.limit {
        PassPromised(next, i + 1, world, a, fd, w);
      }
    }
  }

  lemma {:induction false} CheckedPromised(s: System, k: nat, bad: set<int>, a: nat, fd: int, w: Which)
    requires Promised(s, a, fd, w) && a <= |s.log|
    ensures Promised(Checked(s, k, bad), a, fd, w) && a <= |Checked(s, k, bad).log|
  {
    if k > 0 {
      CheckedPromised(s, k - 1, bad, a, fd, w);
      var p := Checked(s, k - 1, bad);
      if k - 1 in p.st.read.handlers && k - 1 in bad {
        if Kept(p.log, a, fd, w) {
          KeptStays(p.log, [Dropped(k - 1)], a, fd, w);
        } else if Cuts(Dropped(k - 1), fd, w) {
          KeptNow(p.log, Dropped(k - 1), a, fd, w);
        }
      }
    }
  }

  lemma {:induction false} WaitedPromised(s: System, fails: seq<Failure>, a: nat, fd: int, w: Which)
    requires Promised(s, a, fd, w) && a <= |s.log|
    ensures Promised(Waited(s, fails), a, fd, w) && a <= |Waited(s, fails).log|
    decreases |fails|
  {
    hide Promised;
    hide Checked;
    if fails != [] {
      if fails[0].Bad? && s.st.nfds >= 0 {
        CheckedPromised(s, s.st.nfds, fails[0].fds, a, fd, w);
        WaitedPromised(Checked(s, s.st.nfds, fails[0].fds), fails[1..], a, fd, w);
      } else {
        WaitedPromised(s, fails[1..], a, fd, w);
      }
    }
  }

  /** ... and so does a whole dispatch, whatever select reports. */
  lemma {:induction false} DispatchKeepsPromise(s: System, fails: seq<Failure>, f: Found, world: World, a: nat,
      fd: int, w: Which)
    requires Good(s) && Proper(s.st.limit, world) && Promised(s, a, fd, w) && a <= |s.log| && fd >= 0
    requires w == Except ==> fd < Dispatched(s, fails, f, world).st.nfds
    ensures Kept(Dispatched(s, fails, f, world).log, a, fd, w)
  {
    WaitedGood(s, fails);
    WaitedPromised(s, fails, a, fd, w);
    var s1 := Waited(s, fails);
    SelectedGood(s1, f);
    assert Promised(Selected(s1, f), a, fd, w);
    hide Good;
    hide Promised;
    PassKeepsPromise(Selected(s1, f), 0, world, a, fd, w);
  }

  /** Every positive status so far is promised to be followed by another call, unless its callback had
      unlinked the handler before it returned. */
  ghost predicate AllPromised(s: System) {
    forall a :: 0 <= a < |s.log| ==> s.log[a].Returned? ==> s.log[a].status > 0 ==>
      Holder(s.log[..a], s.log[a].fd, s.log[a].which).Some? ==> Promised(s, a + 1, s.log[a].fd, s.log[a].which)
  }

  /** n's history continues that of s, and all promises of s hold in n; the new entries make none. */
  ghost predicate Continues(s: System, n: System) {
    && |s.log| <= |n.log| && n.log[..|s.log|] == s.log
    && (forall a, fd, w :: 0 <= a <= |s.log| && Promised(s, a, fd, w) ==> Promised(n, a, fd, w))
  }

  lemma {:induction false} ContinuesKeeps(s: System, n: System)
    requires AllPromised(s) && Continues(s, n)
    requires forall a :: |s.log| <= a < |n.log| ==> n.log[a].Returned? ==> n.log[a].status > 0 ==>
      Holder(n.log[..a], n.log[a].fd, n.log[a].which).Some? ==> Promised(n, a + 1, n.log[a].fd, n.log[a].which)
    ensures AllPromised(n)
  {
    hide Promised;
    forall a | 0 <= a < |s.log| && n.log[a].Returned? && n.log[a].status > 0
        && Holder(n.log[..a], n.log[a].fd, n.log[a].which).Some?
      ensures Promised(n, a + 1, n.log[a].fd, n.log[a].which)
    {
      assert n.log[a] == n.log[..|s.log|][a] == s.log[a];
      assert n.log[..a] == n.log[..|s.log|][..a] == s.log[..a];
    }
  }

  lemma {:induction false} PerformAllLog(s: System, ops: seq<Op>)
    ensures var n := PerformAll(s, ops);
      |s.log| <= |n.log| && n.log[..|s.log|] == s.log && forall a :: |s.log| <= a < |n.log| ==> n.log[a].Did?
    decreases |ops|
  {
    if ops != [] {
      PerformAllLog(Perform(s, ops[0]), ops[1..]);
      var n := PerformAll(s, ops);
      assert n.log[..|s.log| + 1][..|s.log|] == n.log[..|s.log|];
      assert n.log[..|s.log| + 1][|s.log|] == n.log[|s.log|];
    }
  }

  lemma {:induction false} CallbackLog(s: System, k: int, v: Which, h: Receiver, r: Reply)
    ensures var n := Callback(s, k, v, h, r);
      && |s.log| + 2 <= |n.log| && n.log[..|s.log|] == s.log
      && n.log[|s.log|] == Called(k, v, h) && n.log[|n.log| - 1] == Returned(k, v, r.status)
      && forall a :: |s.log| < a < |n.log| - 1 ==> n.log[a].Did?
  {
    var s1 := s.(log := s.log + [Called(k, v, h)], turn := s.turn + 1);
    PerformAllLog(s1, r.ops);
    var n := Callback(s, k, v, h, r);
    assert n.log[..|s.log| + 1] == s1.log && n.log[..|s.log| + 1][|s.log|] == n.log[|s.log|];
    assert n.log[..|s.log| + 1][..|s.log|] == n.log[..|s.log|];
  }

  /** The promise that the last callback of n made. */
  lemma {:induction false} NewPromise(s: System, k: int, v: Which, h: Receiver, world: World)
    requires Good(s) && Proper(s.st.limit, world) && s.st.On(v).Notify(k) == Some(h)
    requires var log := Notified(s, k, v, world).log; |log| > 0 && Holder(log[..|log| - 1], k, v).Some?
    requires world(s.turn).status > 0
    ensures Promised(Notified(s, k, v, world), |Notified(s, k, v, world).log|, k, v)
  {
    var n := Notified(s, k, v, world);
    CallbackLog(s, k, v, h, world(s.turn));
    NotifiedGood(s, k, v, world);
    assert k in n.st.On(v).readies;
    hide Notified;
    var was := n.log[..|n.log| - 1];
    HolderStep(was, n.log[|n.log| - 1], k, v);
    assert n.log == was + [n.log[|n.log| - 1]];
    assert Handler(n.st, k, v) == Holder(n.log, k, v);
  }

  /** What one notify adds to the history. */
  lemma {:induction false} NotifiedLog(s: System, k: int, v: Which, world: World)
    ensures var n := Notified(s, k, v, world);
      && |s.log| <= |n.log| && n.log[..|s.log|] == s.log
      && (forall a :: |s.log| <= a < |n.log| ==> n.log[a].Returned? ==>
            a == |n.log| - 1 && s.st.On(v).Notify(k).Some? && n.log[a] == Returned(k, v, world(s.turn).status))
      && (forall a :: |s.log| <= a < |n.log| ==> n.log[a].Called? ==>
            && a == |s.log| && n.log[a].fd == k && n.log[a].which == v
            && (k in s.st.On(v).selected || k in s.st.On(v).readies))
  {
    var call := s.st.On(v).Notify(k);
    if call.Some? {
      CallbackLog(s, k, v, call.value, world(s.turn));
    }
    hide Callback;
  }

  lemma {:induction false} NotifiedKeepsAll(s: System, k: int, v: Which, world: World)
    requires Good(s) && Proper(s.st.limit, world) && AllPromised(s)
    ensures AllPromised(Notified(s, k, v, world))
  {
    hide Notified;
    hide Promised;
    hide Good;
    hide AllPromised;
    hide Holder;
    var n := Notified(s, k, v, world);
    NotifiedLog(s, k, v, world);
    forall a, fd, w | 0 <= a <= |s.log| && Promised(s, a, fd, w) ensures Promised(n, a, fd, w) {
      NotifiedPromised(s, k, v, world, a, fd, w);
    }
    forall a | |s.log| <= a < |n.log| && n.log[a].Returned? && n.log[a].status > 0
        && Holder(n.log[..a], n.log[a].fd, n.log[a].which).Some?
      ensures Promised(n, a + 1, n.log[a].fd, n.log[a].which)
    {
      NewPromise(s, k, v, s.st.On(v).Notify(k).value, world);
    }
    ContinuesKeeps(s, n);
  }

  lemma {:induction false} NotifiedAllKeepsAll(s: System, k: int, world: World)
    requires Good(s) && Proper(s.st.limit, world) && AllPromised(s)
    ensures AllPromised(NotifiedAll(s, k, world))
  {
    hide Good;
    hide AllPromised;
    hide Notified;
    NotifiedKeepsAll(s, k, Read, world);
    NotifiedGood(s, k, Read, world);
    var s1 := Notified(s, k, Read, world);
    NotifiedKeepsAll(s1, k, Write, world);
    NotifiedGood(s1, k, Write, world);
    NotifiedKeepsAll(Notified(s1, k, Write, world), k, Except, world);
  }

  lemma {:induction false} PassKeepsAll(s: System, i: nat, world: World)
    requires Good(s) && Proper(s.st.limit, world) && AllPromised(s)
    ensures AllPromised(Pass(s, i, world))
    decreases s.st.limit - i
  {
    hide Good;
    hide AllPromised;
    hide NotifiedAll;
    if i < s.st.nfds && i < s.st.limit {
      NotifiedAllGood(s, i, world);
      NotifiedAllKeepsAll(s, i, world);
      PassKeepsAll(NotifiedAll(s, i, world), i + 1, world);
    }
  }

  lemma {:induction false} CheckedLog(s: System, k: nat, bad: set<int>)
    ensures var n := Checked(s, k, bad);
      |s.log| <= |n.log| && n.log[..|s.log|] == s.log && forall a :: |s.log| <= a < |n.log| ==> n.log[a].Dropped?
  {
    if k > 0 {
      CheckedLog(s, k - 1, bad);
    }
  }

  lemma {:induction false} WaitedLog(s: System, fails: seq<Failure>)
    ensures var n := Waited(s, fails);
      |s.log| <= |n.log| && n.log[..|s.log|] == s.log && forall a :: |s.log| <= a < |n.log| ==> n.log[a].Dropped?
    decreases |fails|
  {
    if fails != [] {
      if fails[0].Bad? && s.st.nfds >= 0 {
        var c := Checked(s, s.st.nfds, fails[0].fds);
        CheckedLog(s, s.st.nfds, fails[0].fds);
        WaitedLog(c, fails[1..]);
        var n := Waited(s, fails);
        assert n.log[..|c.log|][..|s.log|] == n.log[..|s.log|];
        assert forall a :: |s.log| <= a < |c.log| ==> n.log[a] == n.log[..|c.log|][a];
      } else {
        WaitedLog(s, fails[1..]);
      }
    }
  }

  lemma {:induction false} DispatchKeepsAll(s: System, fails: seq<Failure>, f: Found, world: World)
    requires Good(s) && Proper(s.st.limit, world) && AllPromised(s)
    ensures AllPromised(Dispatched(s, fails, f, world))
  {
    var s1 := Waited(s, fails);
    var s2 := Selected(s1, f);
    WaitedLog(s, fails);
    WaitedGood(s, fails);
    SelectedGood(s1, f);
    forall a, fd, w | 0 <= a <= |s.log| && Promised(s, a, fd, w) ensures Promised(s2, a, fd, w) {
      WaitedPromised(s, fails, a, fd, w);
    }
    ContinuesKeeps(s, s2);
    hide Good;
    hide AllPromised;
    PassKeepsAll(s2, 0, world);
  }

  lemma {:induction false} PerformKeepsAll(s: System, op: Op)
    requires AllPromised(s)
    ensures AllPromised(Perform(s, op))
  {
    var n := Perform(s, op);
    forall a, fd, w | 0 <= a <= |s.log| && Promised(s, a, fd, w) ensures Promised(n, a, fd, w) {
      PerformPromised(s, op, a, fd, w);
    }
    assert n.log[..|s.log|] == s.log;
    ContinuesKeeps(s, n);
  }

  lemma {:induction false} RunKeepsAll(limit: nat, evs: seq<Event>, world: World)
    requires Proper(limit, world) && forall i :: 0 <= i < |evs| ==> evs[i].Outside? ==> 0 <= evs[i].op.fd < limit
    ensures AllPromised(Run(limit, evs, world))
  {
    if evs != [] {
      var n := |evs| - 1;
      RunIsGood(limit, evs[..n], world);
      RunKeepsAll(limit, evs[..n], world);
      var s := Run(limit, evs[..n], world);
      hide Good;
      hide AllPromised;
      match evs[n]
      case Outside(op) => PerformKeepsAll(s, op);
      case Turn(fails, found) => DispatchKeepsAll(s, fails, found, world);
    }
  }

  /** A read or write handler that returned a positive status and was still linked then is called again
      by the end of the next dispatch, whatever select reports, unless it is unlinked before; so is an
      exception handler that is below nfds at that end. */
  lemma {:induction false} PositiveIsCalledAgain(limit: nat, evs: seq<Event>, fails: seq<Failure>, f: Found,
      world: World, a: nat)
    requires Proper(limit, world) && forall i :: 0 <= i < |evs| ==> evs[i].Outside? ==> 0 <= evs[i].op.fd < limit
    requires var log := Run(limit, evs, world).log;
      a < |log| && log[a].Returned? && log[a].status > 0 && log[a].fd >= 0
      && Holder(log[..a], log[a].fd, log[a].which).Some?
      && (log[a].which == Except ==> log[a].fd < Run(limit, evs + [Turn(fails, f)], world).st.nfds)
    ensures var log := Run(limit, evs, world).log;
      Kept(Run(limit, evs + [Turn(fails, f)], world).log, a + 1, log[a].fd, log[a].which)
  {
    RunIsGood(limit, evs, world);
    RunKeepsAll(limit, evs, world);
    var s := Run(limit, evs, world);
    assert (evs + [Turn(fails, f)])[..|evs|] == evs;
    DispatchKeepsPromise(s, fails, f, world, a + 1, s.log[a].fd, s.log[a].which);
  }

  // ---------- what a callback leaves behind ----------

  function Dids(ops: seq<Op>): (r: seq<Entry>)
    ensures |r| == |ops|
  {
    seq(|ops|, i requires 0 <= i < |ops| => Did(ops[i]))
  }

  lemma {:induction false} PerformAllPlays(s: System, ops: seq<Op>)
    ensures PerformAll(s, ops).log == s.log + Dids(ops) && PerformAll(s, ops).turn == s.turn
    decreases |ops|
  {
    if ops != [] {
      PerformAllPlays(Perform(s, ops[0]), ops[1..]);
      assert Dids(ops) == [Did(ops[0])] + Dids(ops[1..]);
      assert s.log + [Did(ops[0])] + Dids(ops[1..]) == s.log + ([Did(ops[0])] + Dids(ops[1..]));
    } else {
      assert s.log + Dids(ops) == s.log;
    }
  }

  /** Notifying a linked handler that is selected or ready calls it, and it does what it does in this turn,
      all of it and in order, and returns its status. Notifying any other one does nothing but clear
      its ready bit. */
  lemma {:induction false} NotifyingPlaysTheReply(s: System, fd: int, w: Which, world: World)
    ensures var n, m, r := Notified(s, fd, w, world), s.st.On(w), world(s.turn);
      if fd in m.handlers && fd in m.selected + m.readies then
        && n.turn == s.turn + 1
        && n.log == s.log + [Called(fd, w, m.handlers[fd])] + Dids(r.ops) + [Returned(fd, w, r.status)]
      else n == s.(st := s.st.With(w, m.(readies := m.readies - {fd})))
  {
    var m, r := s.st.On(w), world(s.turn);
    if m.Notify(fd).Some? {
      PerformAllPlays(s.(log := s.log + [Called(fd, w, m.handlers[fd])], turn := s.turn + 1), r.ops);
    }
    hide PerformAll;
  }

  // ---------- whom a dispatch calls ----------

  /** What select reports for one of the three conditions. */
  function Reported(f: Found, w: Which): set<int> {
    match w
    case Read => f.read
    case Write => f.write
    case Except => f.except
  }

  /** A read or write handler for which select reports is called in the pass that follows, unless it is
      unlinked before its turn; so is an exception handler that is below nfds at the end, for which
      select reports or has not looked. */
  lemma {:induction false} ReportedIsCalled(s: System, fails: seq<Failure>, f: Found, world: World, fd: int, w: Which)
    requires Good(s) && Proper(s.st.limit, world)
    requires w == Except ==> fd < Dispatched(s, fails, f, world).st.nfds
    requires fd in Waited(s, fails).st.On(w).handlers
    requires fd in Reported(f, w) || fd >= Waited(s, fails).st.nfds
    ensures Kept(Dispatched(s, fails, f, world).log, |Waited(s, fails).log|, fd, w)
  {
    WaitedGood(s, fails);
    var s1 := Waited(s, fails);
    SelectedGood(s1, f);
    assert Promised(Selected(s1, f), |s1.log|, fd, w, true);
    assert fd >= 0;
    hide Good;
    hide Promised;
    PassKeepsPromise(Selected(s1, f), 0, world, |s1.log|, fd, w, true);
  }

  lemma {:induction false} CheckedDropsExactly(s: System, k: nat, bad: set<int>, fd: int)
    ensures var n := Checked(s, k, bad);
      && n.st.nfds == s.st.nfds && n.st.write == s.st.write && n.st.except == s.st.except
      && Handler(n.st, fd, Read) == if 0 <= fd < k && fd in bad then None else Handler(s.st, fd, Read)
  {
    if k > 0 {
      CheckedDropsExactly(s, k - 1, bad, fd);
      CheckedDropsExactly(s, k - 1, bad, k - 1);
    }
  }

  /** While select fails, exactly those read handlers are dropped that are found bad after one of the
      failures, and nothing else changes hands. */
  lemma {:induction false} WaitedDropsExactly(s: System, fails: seq<Failure>, fd: int)
    requires Good(s)
    ensures var n := Waited(s, fails);
      && n.st.nfds == s.st.nfds && n.st.write == s.st.write && n.st.except == s.st.except
      && Handler(n.st, fd, Read) ==
         if exists i :: 0 <= i < |fails| && fails[i].Bad? && fd in fails[i].fds then None else Handler(s.st, fd, Read)
    decreases |fails|
  {
    if fails != [] {
      var bad := if fails[0].Bad? then fails[0].fds else {};
      var m := if fails[0].Bad? then Checked(s, s.st.nfds, bad) else s;
      assert Handler(s.st, fd, Read).Some? ==> s.st.Busy(fd) && 0 <= fd;
      CheckedDropsExactly(s, s.st.nfds, bad, fd);
      CheckedGood(s, s.st.nfds, bad);
      hide Good;
      hide Checked;
      WaitedDropsExactly(m, fails[1..], fd);
      var later := exists i :: 0 <= i < |fails[1..]| && fails[1..][i].Bad? && fd in fails[1..][i].fds;
      if i :| 0 <= i < |fails| && fails[i].Bad? && fd in fails[i].fds {
        assert i > 0 ==> fails[1..][i - 1] == fails[i];
      }
      if later {
        var i :| 0 <= i < |fails[1..]| && fails[1..][i].Bad? && fd in fails[1..][i].fds;
        assert fails[i + 1] == fails[1..][i];
      }
    }
  }

  /** What select reported stays, and no ready bit is new except perhaps (fd, w). */
  ghost predicate NoneElseReady(st: State, st': State, fd: int, w: Which) {
    && (forall v :: st'.On(v).selected == st.On(v).selected)
    && (forall g, v :: g in st'.On(v).readies ==> g in st.On(v).readies || (g == fd && v == w))
  }

  lemma {:induction false} DoReadiesNone(st: State, op: Op)
    ensures forall v :: Do(st, op).On(v).selected == st.On(v).selected && Do(st, op).On(v).readies <= st.On(v).readies
  {
    hide Lowered;
    match op
    case Link(f, v, h) =>
    case Unlink(f, v) =>
    case UnlinkAll(f) =>
  }

  lemma {:induction false} PerformAllReadiesNone(s: System, ops: seq<Op>, fd: int, w: Which)
    ensures NoneElseReady(s.st, PerformAll(s, ops).st, fd, w)
    decreases |ops|
  {
    if ops != [] {
      DoReadiesNone(s.st, ops[0]);
      hide Do;
      PerformAllReadiesNone(Perform(s, ops[0]), ops[1..], fd, w);
    }
  }

  lemma {:induction false} NotifiedReadiesOne(s: System, fd: int, w: Which, world: World)
    ensures NoneElseReady(s.st, Notified(s, fd, w, world).st, fd, w)
  {
    hide Reduced;
    if s.st.On(w).Notify(fd).Some? {
      var r := world(s.turn);
      var s1 := s.(log := s.log + [Called(fd, w, s.st.On(w).Notify(fd).value)], turn := s.turn + 1);
      PerformAllReadiesNone(s1, r.ops, fd, w);
      hide PerformAll;
      DoReadiesNone(PerformAll(s1, r.ops).st, UnlinkAll(fd));
    }
  }

  /** The order of a pass: lower descriptors first, and of one descriptor reading before writing before
      exceptions. */
  function Order(fd: int, w: Which): int {
    3 * fd + match w case Read => 0 case Write => 1 case Except => 2
  }

  /** Since s there have been callbacks from p on and before q only, all of them selected or ready in s,
      and in order; beside them, no ready bit is new. */
  ghost predicate CallsDue(s: System, n: System, p: int, q: int) {
    && |s.log| <= |n.log| && n.log[..|s.log|] == s.log && p <= q
    && (forall b :: |s.log| <= b < |n.log| ==> n.log[b].Called? ==> p <= Order(n.log[b].fd, n.log[b].which) < q)
    && (forall b :: |s.log| <= b < |n.log| ==> n.log[b].Called? ==>
          n.log[b].fd in s.st.On(n.log[b].which).selected + s.st.On(n.log[b].which).readies)
    && (forall b, c :: |s.log| <= b < c < |n.log| ==> n.log[b].Called? ==> n.log[c].Called? ==>
          Order(n.log[b].fd, n.log[b].which) < Order(n.log[c].fd, n.log[c].which))
    && (forall v :: n.st.On(v).selected == s.st.On(v).selected)
    && (forall g, v :: g in n.st.On(v).readies ==> g in s.st.On(v).readies || p <= Order(g, v) < q)
  }

  lemma {:induction false} DueThenDue(s: System, m: System, n: System, p: int, q: int, r: int)
    requires CallsDue(s, m, p, q) && CallsDue(m, n, q, r)
    ensures CallsDue(s, n, p, r)
  {
    hide Order;
    assert n.log[..|m.log|][..|s.log|] == n.log[..|s.log|];
    forall b | |s.log| <= b < |m.log| ensures n.log[b] == m.log[b] {
      assert n.log[..|m.log|][b] == m.log[b];
    }
  }

  lemma {:induction false} NotifiedIsDue(s: System, fd: int, w: Which, world: World)
    ensures CallsDue(s, Notified(s, fd, w, world), Order(fd, w), Order(fd, w) + 1)
  {
    hide Notified;
    NotifiedLog(s, fd, w, world);
    NotifiedReadiesOne(s, fd, w, world);
  }

  lemma {:induction false} NotifiedAllIsDue(s: System, fd: int, world: World)
    ensures CallsDue(s, NotifiedAll(s, fd, world), 3 * fd, 3 * (fd + 1))
  {
    hide Notified;
    hide CallsDue;
    var s1 := Notified(s, fd, Read, world);
    var s2 := Notified(s1, fd, Write, world);
    NotifiedIsDue(s, fd, Read, world);
    NotifiedIsDue(s1, fd, Write, world);
    NotifiedIsDue(s2, fd, Except, world);
    DueThenDue(s, s1, s2, 3 * fd, 3 * fd + 1, 3 * fd + 2);
    DueThenDue(s, s2, Notified(s2, fd, Except, world), 3 * fd, 3 * fd + 2, 3 * fd + 3);
  }

  lemma {:induction false} NoneIsDue(s: System, p: int, q: int)
    requires p <= q
    ensures CallsDue(s, s, p, q)
  {
  }

  lemma {:induction false} PassIsDue(s: System, i: nat, world: World, q: int)
    requires Good(s) && Proper(s.st.limit, world) && 3 * i <= q && 3 * s.st.limit <= q
    ensures CallsDue(s, Pass(s, i, world), 3 * i, q)
    decreases s.st.limit - i
  {
    hide Good;
    hide CallsDue;
    hide NotifiedAll;
    if i < s.st.nfds && i < s.st.limit {
      var next := NotifiedAll(s, i, world);
      NotifiedAllGood(s, i, world);
      NotifiedAllIsDue(s, i, world);
      PassIsDue(next, i + 1, world, q);
      DueThenDue(s, next, Pass(next, i + 1, world), 3 * i, 3 * (i + 1), q);
    } else {
      NoneIsDue(s, 3 * i, q);
    }
  }

  lemma {:induction false} DispatchedIsDue(s: System, fails: seq<Failure>, f: Found, world: World) returns (q: int)
    requires Good(s) && Proper(s.st.limit, world)
    ensures CallsDue(Selected(Waited(s, fails), f), Dispatched(s, fails, f, world), 0, q)
    ensures Good(Waited(s, fails))
  {
    hide Good;
    WaitedGood(s, fails);
    SelectedGood(Waited(s, fails), f);
    q := 3 * s.st.limit;
    PassIsDue(Selected(Waited(s, fails), f), 0, world, q);
  }

  /** A dispatch calls nobody without reason: the pair was left ready by an earlier callback, or it was
      linked when select was called, and select reports for it or has not looked at it. */
  lemma {:induction false} CalledForAReason(s: System, fails: seq<Failure>, f: Found, world: World, b: nat)
    requires Good(s) && Proper(s.st.limit, world)
    requires var log := Dispatched(s, fails, f, world).log; |s.log| <= b < |log| && log[b].Called?
    ensures var st, e := Waited(s, fails).st, Dispatched(s, fails, f, world).log[b];
      || e.fd in st.On(e.which).readies
      || (e.fd in st.On(e.which).handlers && (e.fd in Reported(f, e.which) || e.fd >= st.nfds))
  {
    var q := DispatchedIsDue(s, fails, f, world);
    var m, n := Waited(s, fails), Dispatched(s, fails, f, world);
    WaitedLog(s, fails);
    hide Dispatched;
    hide Waited;
    hide Order;
    match n.log[b].which
    case _ =>
  }

  /** ... and everyone at most once, in order. */
  lemma {:induction false} CalledInOrder(s: System, fails: seq<Failure>, f: Found, world: World, b: nat, c: nat)
    requires Good(s) && Proper(s.st.limit, world)
    requires var log := Dispatched(s, fails, f, world).log; |s.log| <= b < c < |log| && log[b].Called? && log[c].Called?
    ensures var d, e := Dispatched(s, fails, f, world).log[b], Dispatched(s, fails, f, world).log[c];
      d.fd < e.fd || (d.fd == e.fd && (d.which, e.which) in {(Read, Write), (Read, Except), (Write, Except)})
  {
    var q := DispatchedIsDue(s, fails, f, world);
    var m, n := Waited(s, fails), Dispatched(s, fails, f, world);
    WaitedLog(s, fails);
    hide Dispatched;
    hide Waited;
    var d, e := n.log[b], n.log[c];
    assert Order(d.fd, d.which) < Order(e.fd, e.which);
  }

  // ---------- a ready bit without a handler ----------

  /** Ready bits stay with handlers through a callback exactly unless it unlinks itself and then returns
      a positive status. */
  ghost predicate NoStray(st: State, w: Which) {
    st.On(w).readies <= st.On(w).handlers.Keys
  }

  lemma {:induction false} StrayIff(s: System, fd: int, w: Which, world: World)
    requires s.st.On(w).Notify(fd).Some? && world(s.turn).status > 0
    requires NoStray(Callback(s, fd, w, s.st.On(w).Notify(fd).value, world(s.turn)).st, w)
    ensures NoStray(Notified(s, fd, w, world).st, w) <==>
      fd in Callback(s, fd, w, s.st.On(w).Notify(fd).value, world(s.turn)).st.On(w).handlers
  {
    var n := Notified(s, fd, w, world).st;
    assert fd in n.On(w).readies;
  }

  /** No mask has a ready bit without a handler. */
  ghost predicate NoStrays(st: State) {
    forall w :: NoStray(st, w)
  }

  /** Whenever a callback has returned a positive status so far, it was still linked. */
  ghost predicate PositiveHeld(log: seq<Entry>) {
    forall b :: 0 <= b < |log| ==> log[b].Returned? ==> log[b].status > 0 ==>
      Holder(log[..b], log[b].fd, log[b].which).Some?
  }

  /** The last status that a callback for (fd, w) returned. */
  function LastStatus(log: seq<Entry>, fd: int, w: Which): Option<int> {
    if log == [] then None
    else
      match log[|log| - 1]
      case Returned(f, v, status) => if f == fd && v == w then Some(status) else LastStatus(log[..|log| - 1], fd, w)
      case _ => LastStatus(log[..|log| - 1], fd, w)
  }

  /** A ready bit is set only where the last status returned was positive. */
  ghost predicate Backed(s: System) {
    forall fd, w :: fd in s.st.On(w).readies ==>
      LastStatus(s.log, fd, w).Some? && LastStatus(s.log, fd, w).value > 0
  }

  ghost predicate Tidy(s: System) {
    Backed(s) && (PositiveHeld(s.log) ==> NoStrays(s.st))
  }

  lemma {:induction false} BackedStep(s: System, st: State, e: Entry)
    requires Backed(s)
    requires forall fd, w :: fd in st.On(w).readies ==>
      if e.Returned? && e.fd == fd && e.which == w then e.status > 0 else fd in s.st.On(w).readies
    ensures Backed(s.(st := st, log := s.log + [e]))
  {
    var n := s.(st := st, log := s.log + [e]);
    assert n.log[..|s.log|] == s.log;
  }

  lemma {:induction false} HeldBefore(log: seq<Entry>, e: Entry)
    requires PositiveHeld(log + [e])
    ensures PositiveHeld(log)
    ensures e.Returned? && e.status > 0 ==> Holder(log, e.fd, e.which).Some?
  {
    var l := log + [e];
    assert l[|log|] == e && l[..|log|] == log;
    forall b | 0 <= b < |log| ensures l[b] == log[b] && l[..b] == log[..b] {
    }
  }

  lemma {:induction false} PerformTidy(s: System, op: Op)
    requires Tidy(s)
    ensures Tidy(Perform(s, op))
  {
    DoReadiesNone(s.st, op);
    BackedStep(s, Do(s.st, op), Did(op));
    hide Do;
    if PositiveHeld(Perform(s, op).log) {
      HeldBefore(s.log, Did(op));
      DoTidy(s.st, op);
    }
  }

  lemma {:induction false} DoTidy(st: State, op: Op)
    requires NoStrays(st)
    ensures NoStrays(Do(st, op))
  {
    hide Lowered;
    forall w ensures NoStray(Do(st, op), w) {
      assert NoStray(st, w);
    }
  }

  lemma {:induction false} PerformAllTidy(s: System, ops: seq<Op>)
    requires Tidy(s)
    ensures Tidy(PerformAll(s, ops))
    decreases |ops|
  {
    if ops != [] {
      PerformTidy(s, ops[0]);
      hide Tidy;
      PerformAllTidy(Perform(s, ops[0]), ops[1..]);
    }
  }

  /** The callback has returned, and its status is acted on. */
  lemma {:induction false} ReturnedBacked(s: System, fd: int, w: Which, status: int)
    requires Backed(s)
    ensures var n := s.(log := s.log + [Returned(fd, w, status)]);
      && (status < 0 ==> Backed(n.(st := Detached(s.st, fd))))
      && (status == 0 ==> Backed(n.(st := ClearedReady(s.st, fd, w))))
      && (status > 0 ==> Backed(n.(st := SetReady(s.st, fd, w))))
  {
    DoReadiesNone(s.st, UnlinkAll(fd));
    var st := if status < 0 then Detached(s.st, fd) else if status == 0 then ClearedReady(s.st, fd, w)
              else SetReady(s.st, fd, w);
    hide Lowered;
    BackedStep(s, st, Returned(fd, w, status));
    hide Backed;
  }

  lemma {:induction false} ReturnedTidy(s: System, fd: int, w: Which, status: int)
    requires Good(s) && Tidy(s)
    ensures var n := s.(log := s.log + [Returned(fd, w, status)]);
      && (status < 0 ==> Tidy(n.(st := Detached(s.st, fd))))
      && (status == 0 ==> Tidy(n.(st := ClearedReady(s.st, fd, w))))
      && (status > 0 ==> Tidy(n.(st := SetReady(s.st, fd, w))))
  {
    ReturnedBacked(s, fd, w, status);
    hide Backed;
    if PositiveHeld(s.log + [Returned(fd, w, status)]) {
      HeldBefore(s.log, Returned(fd, w, status));
      DoTidy(s.st, UnlinkAll(fd));
      assert status > 0 ==> Handler(s.st, fd, w).Some?;
      forall v ensures NoStray(ClearedReady(s.st, fd, w), v) && (status > 0 ==> NoStray(SetReady(s.st, fd, w), v)) {
        assert NoStray(s.st, v);
      }
    }
  }

  lemma {:induction false} NotifiedTidy(s: System, fd: int, w: Which, world: World)
    requires Good(s) && Proper(s.st.limit, world) && Tidy(s)
    ensures Tidy(Notified(s, fd, w, world))
  {
    hide Good;
    hide Tidy;
    hide PerformAll;
    hide Detached;
    match s.st.On(w).Notify(fd)
    case None => ClearedTidy(s, fd, w);
    case Some(h) =>
      CalledTidy(s, fd, w, h);
      CalledGood(s, fd, w, h);
      var s1 := s.(log := s.log + [Called(fd, w, h)], turn := s.turn + 1);
      var r := world(s.turn);
      PerformAllGood(s1, r.ops);
      PerformAllTidy(s1, r.ops);
      ReturnedTidy(PerformAll(s1, r.ops), fd, w, r.status);
  }

  lemma {:induction false} ClearedTidy(s: System, fd: int, w: Which)
    requires Tidy(s)
    ensures Tidy(s.(st := ClearedReady(s.st, fd, w)))
  {
    forall v | NoStrays(s.st) ensures NoStray(ClearedReady(s.st, fd, w), v) {
      assert NoStray(s.st, v);
    }
  }

  lemma {:induction false} CalledTidy(s: System, fd: int, w: Which, h: Receiver)
    requires Tidy(s)
    ensures Tidy(s.(log := s.log + [Called(fd, w, h)], turn := s.turn + 1))
  {
    if PositiveHeld(s.log + [Called(fd, w, h)]) {
      HeldBefore(s.log, Called(fd, w, h));
    }
  }

  lemma {:induction false} NotifiedAllTidy(s: System, fd: int, world: World)
    requires Good(s) && Proper(s.st.limit, world) && Tidy(s)
    ensures Tidy(NotifiedAll(s, fd, world))
  {
    hide Good;
    hide Tidy;
    hide Notified;
    NotifiedGood(s, fd, Read, world);
    NotifiedTidy(s, fd, Read, world);
    var s1 := Notified(s, fd, Read, world);
    NotifiedGood(s1, fd, Write, world);
    NotifiedTidy(s1, fd, Write, world);
    NotifiedTidy(Notified(s1, fd, Write, world), fd, Except, world);
  }

  lemma {:induction false} PassTidy(s: System, i: nat, world: World)
    requires Good(s) && Proper(s.st.limit, world) && Tidy(s)
    ensures Tidy(Pass(s, i, world))
    decreases s.st.limit - i
  {
    hide Good;
    hide Tidy;
    hide NotifiedAll;
    if i < s.st.nfds && i < s.st.limit {
      NotifiedAllGood(s, i, world);
      NotifiedAllTidy(s, i, world);
      PassTidy(NotifiedAll(s, i, world), i + 1, world);
    }
  }

  lemma {:induction false} CheckedBacked(s: System, k: nat, bad: set<int>)
    requires Backed(s)
    ensures Backed(Checked(s, k, bad))
  {
    if k > 0 {
      CheckedBacked(s, k - 1, bad);
      var p, n := Checked(s, k - 1, bad), Checked(s, k, bad);
      if n.log != p.log {
        BackedStep(p, n.st, Dropped(k - 1));
      }
    }
  }

  lemma {:induction false} CheckedTidy(s: System, k: nat, bad: set<int>)
    requires Tidy(s)
    ensures Tidy(Checked(s, k, bad))
  {
    CheckedBacked(s, k, bad);
    hide Backed;
    if k > 0 {
      CheckedTidy(s, k - 1, bad);
      var p, n := Checked(s, k - 1, bad), Checked(s, k, bad);
      if PositiveHeld(n.log) {
        if k - 1 in p.st.read.handlers && k - 1 in bad {
          HeldBefore(p.log, Dropped(k - 1));
        }
        forall w ensures NoStray(n.st, w) {
          assert NoStray(p.st, w);
        }
      }
    }
  }

  lemma {:induction false} WaitedTidy(s: System, fails: seq<Failure>)
    requires Tidy(s)
    ensures Tidy(Waited(s, fails))
    decreases |fails|
  {
    hide Tidy;
    hide Checked;
    if fails != [] {
      if fails[0].Bad? && s.st.nfds >= 0 {
        CheckedTidy(s, s.st.nfds, fails[0].fds);
        WaitedTidy(Checked(s, s.st.nfds, fails[0].fds), fails[1..]);
      } else {
        WaitedTidy(s, fails[1..]);
      }
    }
  }

  lemma {:induction false} SelectedTidy(s: System, f: Found)
    requires Tidy(s)
    ensures Tidy(Selected(s, f))
  {
    forall w | NoStrays(s.st) ensures NoStray(Selected(s, f).st, w) {
      assert NoStray(s.st, w);
    }
  }

  /** Over every run in which each callback that returned a positive status was still linked by then, no
      ready bit is without a handler. */
  lemma {:induction false} RunIsTidy(limit: nat, evs: seq<Event>, world: World)
    requires Proper(limit, world) && forall i :: 0 <= i < |evs| ==> evs[i].Outside? ==> 0 <= evs[i].op.fd < limit
    requires PositiveHeld(Run(limit, evs, world).log)
    ensures NoStrays(Run(limit, evs, world).st)
  {
    AlwaysTidy(limit, evs, world);
  }

  lemma {:induction false} AlwaysTidy(limit: nat, evs: seq<Event>, world: World)
    requires Proper(limit, world) && forall i :: 0 <= i < |evs| ==> evs[i].Outside? ==> 0 <= evs[i].op.fd < limit
    ensures Tidy(Run(limit, evs, world))
  {
    if evs != [] {
      var n := |evs| - 1;
      RunIsGood(limit, evs[..n], world);
      AlwaysTidy(limit, evs[..n], world);
      var s := Run(limit, evs[..n], world);
      hide Good;
      hide Tidy;
      match evs[n]
      case Outside(op) => PerformTidy(s, op);
      case Turn(fails, found) =>
        WaitedGood(s, fails);
        WaitedTidy(s, fails);
        SelectedGood(Waited(s, fails), found);
        SelectedTidy(Waited(s, fails), found);
        PassTidy(Selected(Waited(s, fails), found), 0, world);
    }
  }

  /** Over every run: a dispatch calls a receiver only if the last status returned for the descriptor and
      condition was positive, or it was linked when select was called, and select reports for it or has
      not looked at it. */
  lemma {:induction false} EveryCallHasAReason(limit: nat, evs: seq<Event>, fails: seq<Failure>, f: Found,
      world: World, b: nat)
    requires Proper(limit, world) && forall i :: 0 <= i < |evs| ==> evs[i].Outside? ==> 0 <= evs[i].op.fd < limit
    requires var log := Run(limit, evs + [Turn(fails, f)], world).log;
      |Run(limit, evs, world).log| <= b < |log| && log[b].Called?
    ensures var m, e := Waited(Run(limit, evs, world), fails), Run(limit, evs + [Turn(fails, f)], world).log[b];
      || (LastStatus(m.log, e.fd, e.which).Some? && LastStatus(m.log, e.fd, e.which).value > 0)
      || (e.fd in m.st.On(e.which).handlers && (e.fd in Reported(f, e.which) || e.fd >= m.st.nfds))
  {
    RunIsGood(limit, evs, world);
    AlwaysTidy(limit, evs, world);
    var s := Run(limit, evs, world);
    assert (evs + [Turn(fails, f)])[..|evs|] == evs;
    WaitedTidy(s, fails);
    CalledForAReason(s, fails, f, world, b);
    hide Good;
  }

  /** A stray bit at a descriptor that nothing reaches any more is never cleared, and keeps every later
      select from waiting. */
  lemma {:induction false} StrayStays(s: System, turns: seq<(seq<Failure>, Found)>, world: World, fd: int, w: Which)
      returns (n: System)
    requires s.st.nfds == 0 && fd in s.st.On(w).readies
    ensures n == Turns(s, turns, world) && n.st.nfds == 0 && fd in n.st.On(w).readies && AnyReady(n.st)
    decreases |turns|
  {
    if turns == [] {
      n := s;
    } else {
      var (fails, f) := turns[0];
      WaitedIdle(s, fails);
      var s1 := Selected(Waited(s, fails), f);
      assert Pass(s1, 0, world) == s1;
      n := StrayStays(s1, turns[1..], world, fd, w);
    }
  }

  function Turns(s: System, turns: seq<(seq<Failure>, Found)>, world: World): System
    decreases |turns|
  {
    if turns == [] then s else Turns(Dispatched(s, turns[0].0, turns[0].1, world), turns[1..], world)
  }

  lemma {:induction false} WaitedIdle(s: System, fails: seq<Failure>)
    requires s.st.nfds == 0
    ensures Waited(s, fails) == s
    decreases |fails|
  {
    if fails != [] {
      assert Checked(s, 0, if fails[0].Bad? then fails[0].fds else {}) == s;
      WaitedIdle(s, fails[1..]);
    }
  }

  /** A single reader that unlinks itself and then returns a positive status leaves one. */
  lemma {:induction false} SelfUnlinkLeavesStray(limit: nat, fd: nat, h: Receiver, found: set<int>, world: World,
      status: int)
    requires fd < limit && fd in found && status > 0 && world(0) == Reply([Unlink(fd, Read)], status)
    ensures var linked := Do(State(limit, 0, NoMasks(), NoMasks(), NoMasks()), Link(fd, Read, h));
      var s := Selected(System(linked, [], 0), Found(found, {}, {}));
      var n := Notified(s, fd, Read, world).st;
      linked.nfds == fd + 1 && n.nfds == 0 && fd in n.read.readies && n.read.handlers == map[]
  {
    var linked := Do(State(limit, 0, NoMasks(), NoMasks(), NoMasks()), Link(fd, Read, h));
    var s := Selected(System(linked, [], 0), Found(found, {}, {}));
    assert s.st.read.Notify(fd) == Some(h);
    var s1 := s.(log := s.log + [Called(fd, Read, h)], turn := 1);
    var u := s1.st.(read := s1.st.read.Detach(fd));
    assert u.read.handlers == map[];
    LoweredIdle(u, fd + 1);
    assert PerformAll(Perform(s1, Unlink(fd, Read)), []) == Perform(s1, Unlink(fd, Read));
    assert PerformAll(s1, [Unlink(fd, Read)]) == Perform(s1, Unlink(fd, Read));
  }

  lemma {:induction false} LoweredIdle(s: State, k: nat)
    requires s.read.handlers == map[] && s.write.handlers == map[]
    ensures Lowered(s, k) == 0
  {
  }

  // ---------- the dispatcher in place ----------

  class Dispatcher {
    const limit: nat
    var nfds: int
    var read: Masks
    var write: Masks
    var except: Masks
    var turn: nat
    ghost var log: seq<Entry>

    ghost function Value(): System
      reads this
    {
      System(State(limit, nfds, read, write, except), log, turn)
    }

    constructor (limit: nat)
      ensures Value() == System(State(limit, 0, NoMasks(), NoMasks(), NoMasks()), [], 0)
    {
      this.limit, nfds, turn := limit, 0, 0;
      read, write, except := NoMasks(), NoMasks(), NoMasks();
      log := [];
    }

    function Mask(w: Which): Masks
      reads this
    {
      match w
      case Read => read
      case Write => write
      case Except => except
    }

    method SetMask(w: Which, m: Masks)
      modifies this`read, this`write, this`except
      ensures Value() == old(Value()).(st := old(Value().st).With(w, m))
    {
      match w
      case Read => read := m;
      case Write => write := m;
      case Except => except := m;
    }

    method ReduceNfds(fd: int)
      requires 0 <= nfds
      modifies this`nfds
      ensures Value() == old(Value()).(st := Reduced(old(Value().st), fd)) && 0 <= nfds
    {
      if nfds != fd + 1 {
        return;
      }
      ghost var st := Value().st;
      var k := nfds;
      while k > 0 && k - 1 !in read.handlers && k - 1 !in write.handlers
        invariant 0 <= k <= nfds && Lowered(st, nfds) == Lowered(st, k)
        invariant Value().st == st
      {
        k := k - 1;
      }
      nfds := k;
    }

    method LinkFd(fd: int, w: Which, h: Receiver)
      requires 0 <= fd < limit && 0 <= nfds
      modifies this
      ensures Value() == Perform(old(Value()), Link(fd, w, h)) && 0 <= nfds
    {
      SetMask(w, Mask(w).Attach(fd, h));
      if nfds < fd + 1 {
        nfds := fd + 1;
      }
      log := log + [Did(Link(fd, w, h))];
    }

    method UnlinkFd(fd: int, w: Which)
      requires 0 <= fd < limit && 0 <= nfds
      modifies this
      ensures Value() == Perform(old(Value()), Unlink(fd, w)) && 0 <= nfds
    {
      SetMask(w, Mask(w).Detach(fd));
      ReduceNfds(fd);
      log := log + [Did(Unlink(fd, w))];
    }

    method DetachFd(fd: int)
      requires 0 <= nfds
      modifies this`read, this`write, this`except, this`nfds
      ensures Value() == old(Value()).(st := Detached(old(Value().st), fd)) && 0 <= nfds
    {
      read, write, except := read.Detach(fd), write.Detach(fd), except.Detach(fd);
      ReduceNfds(fd);
    }

    /** What a callback does in its turn. */
    method PerformOps(ops: seq<Op>)
      requires 0 <= nfds && forall i :: 0 <= i < |ops| ==> 0 <= ops[i].fd < limit
      modifies this
      ensures Value() == PerformAll(old(Value()), ops) && 0 <= nfds
    {
      var i := 0;
      assert ops[0..] == ops;
      while i < |ops|
        invariant 0 <= i <= |ops| && 0 <= nfds
        invariant PerformAll(Value(), ops[i..]) == PerformAll(old(Value()), ops)
      {
        assert ops[i..][0] == ops[i] && ops[i..][1..] == ops[i + 1..];
        match ops[i] {
          case Link(fd, w, h) => LinkFd(fd, w, h);
          case Unlink(fd, w) => UnlinkFd(fd, w);
          case UnlinkAll(fd) =>
            DetachFd(fd);
            log := log + [Did(ops[i])];
        }
        i := i + 1;
      }
    }

    method NotifyOne(fd: int, w: Which, world: World)
      requires 0 <= nfds && Proper(limit, world)
      modifies this
      ensures Value() == Notified(old(Value()), fd, w, world) && 0 <= nfds
    {
      hide PerformAll;
      hide Detached;
      var status := 0;
      var h := Mask(w).Notify(fd);
      if h.Some? {
        var reply := world(turn);
        log, turn := log + [Called(fd, w, h.value)], turn + 1;
        PerformOps(reply.ops);
        status := reply.status;
        log := log + [Returned(fd, w, status)];
      }
      if status < 0 {
        DetachFd(fd);
      } else {
        var m := Mask(w);
        SetMask(w, m.(readies := if status == 0 then m.readies - {fd} else m.readies + {fd}));
      }
    }

    /** notify(): the bound is read again in every round. */
    method NotifyEach(world: World)
      requires Good(Value()) && Proper(limit, world)
      modifies this
      ensures Value() == Pass(old(Value()), 0, world) && Good(Value())
    {
      hide Good;
      hide Notified;
      ghost var whole := Pass(Value(), 0, world);
      assert 0 <= nfds <= limit by { GoodBounds(Value()); }
      var i := 0;
      while i < nfds
        invariant Good(Value()) && 0 <= nfds <= limit && 0 <= i
        invariant Pass(Value(), i, world) == whole
        decreases limit - i
      {
        ghost var s := Value();
        NotifiedAllGood(s, i, world);
        NotifyOne(i, Read, world);
        NotifyOne(i, Write, world);
        NotifyOne(i, Except, world);
        GoodBounds(Value());
        i := i + 1;
      }
    }

    method CheckConnections(bad: set<int>)
      requires 0 <= nfds
      modifies this`read, this`log
      ensures Value() == Checked(old(Value()), nfds, bad)
    {
      ghost var s := Value();
      var fd := 0;
      while fd < nfds
        invariant 0 <= fd <= nfds && Value() == Checked(s, fd, bad)
      {
        if fd !in read.handlers {
          read := read.(masks := read.masks - {fd}, readies := read.readies - {fd});
        } else if fd in bad {
          read := read.Detach(fd);
          log := log + [Dropped(fd)];
        }
        fd := fd + 1;
      }
    }

    /** dispatch: waitFor, through the select calls that failed to the one that did not (whose sets alone
        matter), and notify. */
    method DispatchOnce(fails: seq<Failure>, f: Found, world: World)
      requires Good(Value()) && Proper(limit, world)
      modifies this
      ensures Value() == Dispatched(old(Value()), fails, f, world) && Good(Value())
    {
      hide Good;
      hide Checked;
      hide Pass;
      WaitedGood(Value(), fails);
      SelectedGood(Waited(Value(), fails), f);
      ghost var waited := Waited(Value(), fails);
      assert fails[0..] == fails;
      GoodBounds(Value());
      var i := 0;
      while i < |fails|
        invariant 0 <= i <= |fails| && Good(Value()) && 0 <= nfds
        invariant Waited(Value(), fails[i..]) == waited
      {
        assert fails[i..][0] == fails[i] && fails[i..][1..] == fails[i + 1..];
        if fails[i].Bad? {
          CheckedGood(Value(), nfds, fails[i].fds);
          CheckConnections(fails[i].fds);
        }
        i := i + 1;
      }
      read, write := read.Selected(nfds, f.read), write.Selected(nfds, f.write);
      except := except.Selected(nfds, f.except);
      NotifyEach(world);
    }
  }

  lemma {:induction false} GoodBounds(s: System)
    requires Good(s)
    ensures 0 <= s.st.nfds <= s.st.limit
  {
  }
}
