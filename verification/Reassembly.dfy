/** kDispatcher.c:2396-2506: what process_si_type_tcp makes of the bytes that recv returns, first for one
    readable socket, then over whole runs on many sockets, whose streams may be cut up and interleaved in
    any way; the theorem says exactly when that does not matter, which is when the left-data table never
    appends behind a wrong tail pointer. */
module Reassembly {
  import opened Wrappers
  import opened TailList
  import opened LeftData

  /** What a parser says about the bytes at hand. */
  datatype Verdict = Error | JustOne(size: int) | More(size: int) | NoMatch | Other

  type Parser = Bytes -> Verdict

  /** The messages registered, the bytes kept for later, and whether the caller got RETURN_OK. */
  datatype Parsed = Parsed(msgs: seq<Bytes>, rest: Bytes, ok: bool)

  const MAX_DATA := 65536
  const MAX_SHORT := 32767

  /** The sizes the parser reports on its way through s stay inside s. */
  ghost predicate Sized(p: Parser, s: Bytes)
    decreases |s|
  {
    match p(s)
    case More(n) => 0 < n <= |s| && n <= MAX_SHORT && Sized(p, s[n..])
    case JustOne(n) => 0 <= n <= |s|
    case _ => true
  }

  /** The parsing loop on the merged buffer. (A size out of range, which ends it here, is not
      something the code can survive either.) */
  ghost function Parse(p: Parser, s: Bytes): Parsed
    decreases |s|
  {
    match p(s)
    case More(n) =>
      if 0 < n <= |s| then
        var q := Parse(p, s[n..]);
        Parsed([s[..n]] + q.msgs, q.rest, q.ok)
      else Parsed([], [], false)
    case JustOne(n) => if 0 <= n <= |s| then Parsed([s[..n]], [], true) else Parsed([], [], false)
    case NoMatch => Parsed([], s, true)
    case Error => Parsed([], [], false)
    case Other => Parsed([], [], true)
  }

  // ---------- the framing contract ----------

  function VerdictAt(n: int, k: int): Verdict {
    if k < n then NoMatch else if k == n then JustOne(n) else More(n)
  }

  /** The first n bytes of s are its first message, and the parser finds that out as soon as it has
      them, and no sooner. */
  ghost predicate FrameAt(p: Parser, s: Bytes, n: int) {
    0 < n <= |s| && n <= MAX_SHORT && forall k :: 0 <= k <= |s| ==> p(s[..k]) == VerdictAt(n, k)
  }

  /** The parser cuts the stream s into messages in this way, the last of which may be incomplete. */
  ghost predicate Frames(p: Parser, s: Bytes)
    decreases |s|
  {
    match p(s)
    case NoMatch => forall k :: 0 <= k <= |s| ==> p(s[..k]) == NoMatch
    case JustOne(n) => FrameAt(p, s, n)
    case More(n) => FrameAt(p, s, n) && Frames(p, s[n..])
    case _ => false
  }

  lemma {:induction false} WholePrefix(s: Bytes)
    ensures s[..|s|] == s
  {
  }

  lemma {:induction false} FramesIsSized(p: Parser, s: Bytes)
    requires Frames(p, s)
    ensures Sized(p, s) && Parse(p, s).ok && p([]) == NoMatch && |Parse(p, s).rest| <= |s|
    ensures Frames(p, Parse(p, s).rest) && Parse(p, Parse(p, s).rest).msgs == []
    decreases |s|
  {
    WholePrefix(s);
    assert s[..0] == [];
    if p(s).More? {
      FramesIsSized(p, s[p(s).size..]);
    } else if p(s).JustOne? {
      assert p(s[..0]) == NoMatch;
      assert Parse(p, s).rest[..0] == [];
    }
  }

  lemma {:induction false} FramesPrefix(p: Parser, a: Bytes, b: Bytes)
    requires Frames(p, a + b)
    ensures Frames(p, a)
    decreases |a|
  {
    var s := a + b;
    assert forall k :: 0 <= k <= |a| ==> a[..k] == s[..k];
    WholePrefix(a);
    WholePrefix(s);
    match p(s)
    case NoMatch =>
    case JustOne(n) =>
    case More(n) =>
      if |a| > n {
        assert s[n..] == a[n..] + b;
        FramesPrefix(p, a[n..], b);
      }
  }

  lemma {:induction false} ParseUnfolds(p: Parser, s: Bytes)
    requires Sized(p, s)
    ensures p(s).More? ==>
      var n := p(s).size;
      && 0 < n <= |s| && Sized(p, s[n..])
      && Parse(p, s) == Parsed([s[..n]] + Parse(p, s[n..]).msgs, Parse(p, s[n..]).rest, Parse(p, s[n..]).ok)
    ensures p(s).JustOne? ==> 0 <= p(s).size <= |s| && Parse(p, s) == Parsed([s[..p(s).size]], [], true)
    ensures p(s).NoMatch? ==> Parse(p, s) == Parsed([], s, true)
    ensures p(s).Error? || p(s).Other? ==> Parse(p, s) == Parsed([], [], p(s).Other?)
  {
  }

  /** A parser that finds the first message in what has come finds the same one in the whole stream. */
  lemma {:induction false} SameFrame(p: Parser, a: Bytes, b: Bytes)
    requires Frames(p, a + b) && p(a) != NoMatch
    ensures p(a).JustOne? || p(a).More?
    ensures var n := p(a).size;
      && 0 < n <= |a| && p(a) == VerdictAt(n, |a|) && p(a + b) == VerdictAt(n, |a + b|)
      && p([]) == NoMatch && Frames(p, (a + b)[n..])
  {
    var s := a + b;
    WholePrefix(s);
    assert a == s[..|a|] && s[..0] == [];
    if p(s).JustOne? {
      assert forall k :: 0 <= k <= 0 ==> s[p(s).size..][..k] == [];
    }
  }

  lemma {:induction false} ParseFrame(p: Parser, s: Bytes, n: int)
    requires 0 < n <= |s| && p(s) == VerdictAt(n, |s|) && p([]) == NoMatch
    ensures var q := Parse(p, s[n..]); Parse(p, s) == Parsed([s[..n]] + q.msgs, q.rest, q.ok)
  {
    if n == |s| {
      assert s[n..] == [] && Parse(p, s[n..]) == Parsed([], [], true);
    }
  }

  lemma {:induction false} ResumesAtOnce(p: Parser, a: Bytes, b: Bytes)
    requires Frames(p, a + b) && p(a) == NoMatch
    ensures Parse(p, a) == Parsed([], a, true)
    ensures Parse(p, a + b) == Parsed([] + Parse(p, a + b).msgs, Parse(p, a + b).rest, true)
  {
    FramesIsSized(p, a + b);
  }

  /** Parsing what has come so far, and later what was left over together with the rest of the stream,
      gives what parsing the whole stream gives. */
  lemma {:induction false} ParseResumes(p: Parser, a: Bytes, b: Bytes)
    requires Frames(p, a + b)
    ensures var first := Parse(p, a);
      var second := Parse(p, first.rest + b);
      && first.ok && Frames(p, first.rest + b)
      && Parse(p, a + b) == Parsed(first.msgs + second.msgs, second.rest, true)
    decreases |a|
  {
    hide *;
    if p(a) == NoMatch {
      ResumesAtOnce(p, a, b);
    } else {
      SameFrame(p, a, b);
      var n := p(a).size;
      ParseFrame(p, a, n);
      ParseFrame(p, a + b, n);
      assert (a + b)[n..] == a[n..] + b && (a + b)[..n] == a[..n];
      ParseResumes(p, a[n..], b);
      var first := Parse(p, a[n..]);
      var second := Parse(p, first.rest + b);
      assert [a[..n]] + (first.msgs + second.msgs) == [a[..n]] + first.msgs + second.msgs;
    }
  }

  function Flat(ms: seq<Bytes>): Bytes {
    if ms == [] then [] else ms[0] + Flat(ms[1..])
  }

  lemma {:induction false} FlatOne(m: Bytes, ms: seq<Bytes>)
    ensures Flat([m] + ms) == m + Flat(ms)
  {
    assert ([m] + ms)[1..] == ms;
  }

  /** Whatever the parser says: the messages are, end to end, the bytes up to where the loop stops, and
      only where it sees no message are the rest kept; an error alone makes it fail. */
  lemma {:induction false} BytesAreAccountedFor(p: Parser, s: Bytes) returns (stop: nat, end: nat)
    requires Sized(p, s)
    ensures stop <= end <= |s| && !p(s[stop..]).More?
    ensures end == stop + if p(s[stop..]).JustOne? then p(s[stop..]).size else 0
    ensures var q := Parse(p, s);
      && Flat(q.msgs) == s[..end] && q.ok == !p(s[stop..]).Error?
      && q.rest == if p(s[stop..]).NoMatch? then s[stop..] else []
    decreases |s|
  {
    hide *;
    ParseUnfolds(p, s);
    if p(s).More? {
      var n := p(s).size;
      var k, l := BytesAreAccountedFor(p, s[n..]);
      stop, end := n + k, n + l;
      assert s[n..][k..] == s[stop..];
      FlatOne(s[..n], Parse(p, s[n..]).msgs);
      assert s[..n] + s[n..][..l] == s[..end];
    } else {
      stop := 0;
      end := if p(s).JustOne? then p(s).size else 0;
      assert s[0..] == s && s[..0] == [];
      NothingFlat(s[..end]);
    }
  }

  lemma {:induction false} NothingFlat(m: Bytes)
    ensures Flat([]) == [] && Flat([m]) == m
  {
  }

  // ---------- one readable socket ----------

  /** kBufferGet, the merge, the loop, kBufferSet. */
  ghost function Receive(s: Store, maxId: int, p: Parser, id: int, chunk: Bytes): (r: (Store, Parsed))
    requires LeftData.Valid(s)
    ensures LeftData.Valid(r.0)
  {
    var (s', left) := Get(s, id);
    var q := Parse(p, left + chunk);
    (if q.rest == [] then s' else Set(s', maxId, id, q.rest).0, q)
  }

  /** The loop; rest is what the code hands to kBufferSet. */
  method ParseSpace(p: Parser, space: Bytes) returns (msgs: seq<Bytes>, rest: Bytes, ok: bool)
    requires Sized(p, space)
    ensures Parsed(msgs, rest, ok) == Parse(p, space)
  {
    var pos, len := 0, |space|;
    assert space[0..] == space;
    ghost var whole := Parse(p, space);
    msgs, rest, ok := [], [], true;
    while true
      invariant 0 <= pos && 0 <= len && pos + len == |space| && Sized(p, space[pos..])
      invariant var r := Parse(p, space[pos..]); whole == Parsed(msgs + r.msgs, r.rest, r.ok)
      decreases len
    {
      var here := space[pos..];
      ParseUnfolds(p, here);
      hide Parse;
      match p(here) {
        case Error =>
          return msgs, [], false;
        case JustOne(n) =>
          return msgs + [here[..n]], [], true;
        case More(n) =>
          assert here[n..] == space[pos + n..];
          assert msgs + ([here[..n]] + Parse(p, here[n..]).msgs) == msgs + [here[..n]] + Parse(p, here[n..]).msgs;
          msgs := msgs + [here[..n]];
          pos, len := pos + n, len - n;
        case NoMatch =>
          return msgs, here, true;
        case Other =>
          return msgs, [], true;
      }
    }
  }

  method ProcessTcp(b: Buffer, maxId: int, p: Parser, id: int, chunk: Bytes) returns (msgs: seq<Bytes>, ok: bool)
    requires LeftData.Valid(b.Value()) && chunk != []
    requires var merged := Get(b.Value(), id).1 + chunk; |merged| <= MAX_DATA && Sized(p, merged)
    modifies b
    ensures var (s, q) := Receive(old(b.Value()), maxId, p, id, chunk);
      b.Value() == s && msgs == q.msgs && ok == q.ok
  {
    var left := b.GetLeft(id);
    var rest;
    msgs, rest, ok := ParseSpace(p, left + chunk);
    if rest != [] {
      var _ := b.SetLeft(maxId, id, rest);
    }
  }

  // ---------- runs over many sockets ----------

  /** recv on socket id returned chunk; maxId is the largest socket id in use by then. */
  datatype Recv = Recv(maxId: int, id: int, chunk: Bytes)

  datatype State = State(store: Store, out: seq<(int, Bytes)>)

  ghost function Tagged(id: int, msgs: seq<Bytes>): (r: seq<(int, Bytes)>)
    ensures |r| == |msgs|
  {
    seq(|msgs|, i requires 0 <= i < |msgs| => (id, msgs[i]))
  }

  /** One event; ps(id) is the parser of socket id. */
  ghost function After(ps: int -> Parser, st: State, e: Recv): (r: State)
    requires LeftData.Valid(st.store)
    ensures LeftData.Valid(r.store)
  {
    var (s, q) := Receive(st.store, e.maxId, ps(e.id), e.id, e.chunk);
    State(s, st.out + Tagged(e.id, q.msgs))
  }

  /** All that the readable sockets of a run bring about. */
  ghost function Run(ps: int -> Parser, evs: seq<Recv>): (st: State)
    ensures LeftData.Valid(st.store)
  {
    if evs == [] then State(Store(Empty(), 0), [])
    else After(ps, Run(ps, evs[..|evs| - 1]), evs[|evs| - 1])
  }

  /** The bytes that socket id has received. */
  ghost function Stream(evs: seq<Recv>, id: int): Bytes {
    if evs == [] then []
    else
      var n := |evs| - 1;
      Stream(evs[..n], id) + if evs[n].id == id then evs[n].chunk else []
  }

  /** The messages registered for socket id, in order. */
  ghost function Delivered(out: seq<(int, Bytes)>, id: int): seq<Bytes> {
    if out == [] then []
    else
      var n := |out| - 1;
      Delivered(out[..n], id) + if out[n].0 == id then [out[n].1] else []
  }

  lemma {:induction false} DeliveredConcat(a: seq<(int, Bytes)>, b: seq<(int, Bytes)>, id: int)
    ensures Delivered(a + b, id) == Delivered(a, id) + Delivered(b, id)
  {
    if b == [] {
      assert a + b == a;
    } else {
      var n := |b| - 1;
      assert (a + b)[..|a| + n] == a + b[..n] && (a + b)[|a| + n] == b[n];
      DeliveredConcat(a, b[..n], id);
    }
  }

  lemma {:induction false} DeliveredTagged(id: int, msgs: seq<Bytes>, k: int)
    ensures Delivered(Tagged(id, msgs), k) == if k == id then msgs else []
  {
    if msgs != [] {
      var n := |msgs| - 1;
      assert Tagged(id, msgs)[..n] == Tagged(id, msgs[..n]) && msgs == msgs[..n] + [msgs[n]];
      DeliveredTagged(id, msgs[..n], k);
    }
  }

  function AsEntry(rest: Bytes): Option<Bytes> {
    if rest == [] then None else Some(rest)
  }

  function LeftOf(s: Store, id: int): Bytes {
    if Lookup(s.list.items, id).Some? then Lookup(s.list.items, id).value else []
  }

  /** The table without a promise about its tail pointer: entries are counted, and their ids in use. */
  ghost predicate Counted(s: Store, maxId: int) {
    LeftData.Valid(s) && s.num == |s.list.items| && IdsUpTo(s.list.items, maxId)
  }

  ghost predicate InOrder(s: Store, maxId: int) {
    Sound(s) && IdsUpTo(s.list.items, maxId)
  }

  /** As a map from the sockets in use to their bytes, r is s but for socket id, which has rest. */
  ghost predicate Updated(s: Store, r: Store, limit: int, id: int, rest: Bytes) {
    forall k :: 1 <= k <= limit ==>
      Lookup(r.list.items, k) == if k == id then AsEntry(rest) else Lookup(s.list.items, k)
  }

  /** No entry has an id outside the range. */
  lemma {:induction false} NoneOutside(s: Store, maxId: int, k: int)
    requires IdsUpTo(s.list.items, maxId) && !(1 <= k <= maxId)
    ensures Lookup(s.list.items, k) == None
  {
    assert forall e :: e in s.list.items ==> e.id != k;
    assert forall i :: 0 <= i < |s.list.items| ==> s.list.items[i] in s.list.items;
  }

  /** Storing what is left, after the old entry has been taken out, is an update of the map exactly
      when the tail pointer is right by then. */
  lemma {:induction false} StoringIsUpdateIff(s: Store, maxId: int, limit: int, id: int, rest: Bytes)
    requires Counted(s, maxId) && 1 <= id <= maxId <= limit && Lookup(s.list.items, id).None? && rest != []
    ensures var r := Set(s, maxId, id, rest).0;
      && (Updated(s, r, limit, id, rest) <==> TailOk(s.list))
      && (TailOk(s.list) ==> Counted(r, maxId))
  {
    var r := Set(s, maxId, id, rest).0;
    NeverFull(s, maxId, id);
    SetIsUpdateIff(s, maxId, id, rest);
    AppendsIff(s.list, Entry(id, rest));
    NoOtherEntries(s, maxId, id, rest);
    hide Find;
    hide Lookup;
    hide Appended;
    hide DistinctIds;
    forall k | !(1 <= k <= limit) ensures Lookup(r.list.items, k) == Lookup(s.list.items, k) == None {
      NoneOutside(s, maxId, k);
      NoneOutside(r, maxId, k);
    }
  }

  /** What an event does to the map, when the entry taken out may have stood anywhere. */
  lemma {:induction false} ReceiveIsUpdateIff(s: Store, maxId: int, limit: int, p: Parser, id: int, chunk: Bytes)
    requires Counted(s, maxId) && 1 <= id <= maxId <= limit
    ensures var (r, q) := Receive(s, maxId, p, id, chunk);
      && q == Parse(p, LeftOf(s, id) + chunk)
      && (Updated(s, r, limit, id, q.rest) <==> q.rest == [] || TailOk(Get(s, id).0.list))
      && (q.rest == [] || TailOk(Get(s, id).0.list) ==> Counted(r, maxId))
      && (q.rest == [] ==> r == Get(s, id).0)
  {
    var s' := Get(s, id).0;
    GetTakesOut(s, id);
    NoOtherEntries(s, maxId, id, []);
    var rest := Receive(s, maxId, p, id, chunk).1.rest;
    assert Counted(s', maxId);
    hide Find;
    hide Lookup;
    hide DistinctIds;
    if rest != [] {
      StoringIsUpdateIff(s', maxId, limit, id, rest);
    }
  }

  /** The entry of socket id, if there is one, stands first or last in the list. */
  ghost predicate AtAnEnd(s: Store, id: int) {
    var i := Find(s.list.items, id);
    i == 0 || i >= |s.list.items| - 1
  }

  /** With a right tail pointer, an event leaves all other sockets' bytes and the tail pointer right
      exactly when the entry it takes out stands at an end of the list. */
  lemma {:induction false} ReceiveKeepsIff(s: Store, maxId: int, p: Parser, id: int, chunk: Bytes)
    requires InOrder(s, maxId) && 1 <= id <= maxId
    ensures var (r, q) := Receive(s, maxId, p, id, chunk);
      InOrder(r, maxId) && Updated(s, r, maxId, id, q.rest) <==> AtAnEnd(s, id)
  {
    var (r, q) := Receive(s, maxId, p, id, chunk);
    var s' := Get(s, id).0;
    ReceiveIsUpdateIff(s, maxId, maxId, p, id, chunk);
    GetTakesOut(s, id);
    if q.rest != [] {
      AppendsIff(s'.list, Entry(id, q.rest));
    }
  }

  // ---------- the theorem ----------

  /** The largest id in use at the last event. */
  function Largest(evs: seq<Recv>): int {
    if evs == [] then 0 else evs[|evs| - 1].maxId
  }

  /** The event is on a socket in use and its data fits the merge buffer; ids in use only grow. */
  ghost predicate Fits(s: Store, before: int, limit: int, e: Recv)
    requires LeftData.Valid(s)
  {
    before <= e.maxId <= limit && 1 <= e.id <= e.maxId && e.chunk != [] && |Get(s, e.id).1 + e.chunk| <= MAX_DATA
  }

  ghost predicate AllFit(ps: int -> Parser, limit: int, evs: seq<Recv>) {
    forall i :: 0 <= i < |evs| ==> Fits(Run(ps, evs[..i]).store, Largest(evs[..i]), limit, evs[i])
  }

  /** When the event has bytes to store, it finds the tail pointer right. */
  ghost predicate StoresRight(ps: int -> Parser, s: Store, e: Recv)
    requires LeftData.Valid(s)
  {
    Receive(s, e.maxId, ps(e.id), e.id, e.chunk).1.rest != [] ==> TailOk(Get(s, e.id).0.list)
  }

  ghost predicate AllStoreRight(ps: int -> Parser, evs: seq<Recv>) {
    forall i :: 0 <= i < |evs| ==> StoresRight(ps, Run(ps, evs[..i]).store, evs[i])
  }

  /** What has been registered for every socket is what one parse of its whole stream gives, and its
      entry holds exactly what that parse leaves. */
  ghost predicate Exact(ps: int -> Parser, limit: int, evs: seq<Recv>, st: State) {
    forall k :: 1 <= k <= limit ==>
      && Delivered(st.out, k) == Parse(ps(k), Stream(evs, k)).msgs
      && Lookup(st.store.list.items, k) == AsEntry(Parse(ps(k), Stream(evs, k)).rest)
  }

  ghost predicate ExactThroughout(ps: int -> Parser, limit: int, evs: seq<Recv>) {
    forall n :: 0 <= n <= |evs| ==> Exact(ps, limit, evs[..n], Run(ps, evs[..n]))
  }

  ghost predicate AllFrame(ps: int -> Parser, limit: int, evs: seq<Recv>) {
    forall k :: 1 <= k <= limit ==> Frames(ps(k), Stream(evs, k))
  }

  /** However the streams of the sockets are cut up and interleaved: deliveries and left data are exact
      throughout a run if and only if every event that stores bytes finds the tail pointer right. */
  lemma {:induction false} DeliveryIsSegmentationIndependentIff(ps: int -> Parser, limit: int, evs: seq<Recv>)
    requires AllFit(ps, limit, evs) && AllFrame(ps, limit, evs)
    ensures ExactThroughout(ps, limit, evs) <==> AllStoreRight(ps, evs)
    ensures AllStoreRight(ps, evs) ==> Counted(Run(ps, evs).store, Largest(evs))
    decreases |evs|
  {
    hide *;
    if evs == [] {
      NothingYet(ps, limit, evs);
    } else {
      var n := |evs| - 1;
      OneMore(ps, limit, evs);
      FramesBefore(ps, limit, evs);
      DeliveryIsSegmentationIndependentIff(ps, limit, evs[..n]);
      if AllStoreRight(ps, evs[..n]) {
        ExactNow(ps, limit, evs[..n]);
        ExactStep(ps, limit, evs, Run(ps, evs[..n]));
      }
    }
  }

  lemma {:induction false} NothingYet(ps: int -> Parser, limit: int, evs: seq<Recv>)
    requires evs == [] && AllFrame(ps, limit, evs)
    ensures ExactThroughout(ps, limit, evs) && AllStoreRight(ps, evs)
    ensures Counted(Run(ps, evs).store, Largest(evs))
  {
    forall k | 1 <= k <= limit ensures Parse(ps(k), []) == Parsed([], [], true) {
      FramesIsSized(ps(k), Stream(evs, k));
    }
    assert evs[..0] == evs;
  }

  lemma {:induction false} LastEvent(ps: int -> Parser, evs: seq<Recv>)
    requires evs != []
    ensures Run(ps, evs) == After(ps, Run(ps, evs[..|evs| - 1]), evs[|evs| - 1])
    ensures Largest(evs) == evs[|evs| - 1].maxId
  {
  }

  /** All that holds along a run holds along the run without its last event, and for that event. */
  lemma {:induction false} OneMore(ps: int -> Parser, limit: int, evs: seq<Recv>)
    requires evs != []
    ensures var n := |evs| - 1;
      var st := Run(ps, evs[..n]);
      && Run(ps, evs) == After(ps, st, evs[n]) && Largest(evs) == evs[n].maxId
      && (AllFit(ps, limit, evs) <==> AllFit(ps, limit, evs[..n]) && Fits(st.store, Largest(evs[..n]), limit, evs[n]))
      && (AllStoreRight(ps, evs) <==>
        AllStoreRight(ps, evs[..n]) && StoresRight(ps, st.store, evs[n]))
      && (Calm(ps, evs) <==> Calm(ps, evs[..n]) && AtAnEnd(st.store, evs[n].id))
      && (ExactThroughout(ps, limit, evs) <==>
        ExactThroughout(ps, limit, evs[..n]) && Exact(ps, limit, evs, Run(ps, evs)))
  {
    hide Run;
    hide After;
    hide Largest;
    hide Fits;
    hide StoresRight;
    hide AtAnEnd;
    hide Exact;
    var n := |evs| - 1;
    LastEvent(ps, evs);
    assert evs[..n + 1] == evs;
    assert forall i :: 0 <= i <= n ==> evs[..n][..i] == evs[..i];
    assert forall i :: 0 <= i < n ==> evs[..n][i] == evs[i];
  }

  lemma {:induction false} FramesBefore(ps: int -> Parser, limit: int, evs: seq<Recv>)
    requires evs != [] && AllFrame(ps, limit, evs)
    ensures AllFrame(ps, limit, evs[..|evs| - 1])
  {
    var e, pre := evs[|evs| - 1], evs[..|evs| - 1];
    forall k | 1 <= k <= limit ensures Frames(ps(k), Stream(pre, k)) {
      FramesPrefix(ps(k), Stream(pre, k), if e.id == k then e.chunk else []);
    }
  }

  lemma {:induction false} ExactNow(ps: int -> Parser, limit: int, evs: seq<Recv>)
    requires ExactThroughout(ps, limit, evs)
    ensures Exact(ps, limit, evs, Run(ps, evs))
  {
    assert evs[..|evs|] == evs;
  }

  /** One event, from a state that has been exact so far. */
  lemma {:induction false} ExactStep(ps: int -> Parser, limit: int, evs: seq<Recv>, st: State)
    requires evs != [] && AllFrame(ps, limit, evs) && Counted(st.store, Largest(evs[..|evs| - 1]))
    requires Fits(st.store, Largest(evs[..|evs| - 1]), limit, evs[|evs| - 1]) && Exact(ps, limit, evs[..|evs| - 1], st)
    ensures var e := evs[|evs| - 1];
      var r := After(ps, st, e);
      && (Exact(ps, limit, evs, r) <==> StoresRight(ps, st.store, e))
      && (Exact(ps, limit, evs, r) ==> Counted(r.store, e.maxId))
  {
    hide Stream;
    hide Parse;
    hide Delivered;
    hide Receive;
    hide Lookup;
    hide Get;
    var n := |evs| - 1;
    var e, pre := evs[n], evs[..n];
    ReceiveIsUpdateIff(st.store, e.maxId, limit, ps(e.id), e.id, e.chunk);
    var q := Receive(st.store, e.maxId, ps(e.id), e.id, e.chunk).1;
    hide Counted;
    hide Largest;
    forall k | 1 <= k <= limit
      ensures Delivered(After(ps, st, e).out, k) == Parse(ps(k), Stream(evs, k)).msgs
      ensures Parse(ps(k), Stream(evs, k)).rest == if k == e.id then q.rest else Parse(ps(k), Stream(pre, k)).rest
    {
      EventSeenFrom(ps, evs, st, q, k);
    }
  }

  /** What the event with the parse q adds to what a socket's whole stream gives. */
  lemma {:induction false} EventSeenFrom(ps: int -> Parser, evs: seq<Recv>, st: State, q: Parsed, k: int)
    requires evs != [] && Frames(ps(k), Stream(evs, k))
    requires var e, whole := evs[|evs| - 1], Parse(ps(k), Stream(evs[..|evs| - 1], k));
      && Delivered(st.out, k) == whole.msgs && Lookup(st.store.list.items, k) == AsEntry(whole.rest)
      && q == Parse(ps(e.id), LeftOf(st.store, e.id) + e.chunk)
    ensures var e, pre := evs[|evs| - 1], evs[..|evs| - 1];
      && Delivered(st.out + Tagged(e.id, q.msgs), k) == Parse(ps(k), Stream(evs, k)).msgs
      && Parse(ps(k), Stream(evs, k)).rest == if k == e.id then q.rest else Parse(ps(k), Stream(pre, k)).rest
  {
    hide Parse;
    hide Lookup;
    var n := |evs| - 1;
    var e, pre := evs[n], evs[..n];
    DeliveredConcat(st.out, Tagged(e.id, q.msgs), k);
    DeliveredTagged(e.id, q.msgs, k);
    if e.id == k {
      ParseResumes(ps(k), Stream(pre, k), e.chunk);
      assert LeftOf(st.store, k) == Parse(ps(k), Stream(pre, k)).rest;
    } else {
      assert Stream(evs, k) == Stream(pre, k);
    }
  }

  /** Two ways of cutting and interleaving the same streams come to the same. */
  lemma {:induction false} CutsDoNotMatter(ps: int -> Parser, limit: int, evs: seq<Recv>, evs': seq<Recv>, id: int)
    requires AllFit(ps, limit, evs) && AllFit(ps, limit, evs') && 1 <= id <= limit
    requires AllStoreRight(ps, evs) && AllStoreRight(ps, evs')
    requires AllFrame(ps, limit, evs) && forall k :: 1 <= k <= limit ==> Stream(evs, k) == Stream(evs', k)
    ensures var st, st' := Run(ps, evs), Run(ps, evs');
      && Delivered(st.out, id) == Delivered(st'.out, id)
      && Lookup(st.store.list.items, id) == Lookup(st'.store.list.items, id)
  {
    DeliveryIsSegmentationIndependentIff(ps, limit, evs);
    DeliveryIsSegmentationIndependentIff(ps, limit, evs');
    ExactNow(ps, limit, evs);
    ExactNow(ps, limit, evs');
  }

  // ---------- runs that keep to the ends of the list ----------

  /** Every event of the run finds its entry at an end of the list. */
  ghost predicate Calm(ps: int -> Parser, evs: seq<Recv>) {
    forall i :: 0 <= i < |evs| ==> AtAnEnd(Run(ps, evs[..i]).store, evs[i].id)
  }

  /** Such runs are exact. */
  lemma {:induction false} CalmStoresRight(ps: int -> Parser, limit: int, evs: seq<Recv>)
    requires AllFit(ps, limit, evs) && Calm(ps, evs)
    ensures AllStoreRight(ps, evs) && InOrder(Run(ps, evs).store, Largest(evs))
    decreases |evs|
  {
    if evs != [] {
      var n := |evs| - 1;
      OneMore(ps, limit, evs);
      hide Run;
      hide AllFit;
      hide AllStoreRight;
      hide Calm;
      CalmStoresRight(ps, limit, evs[..n]);
      var e, s := evs[n], Run(ps, evs[..n]).store;
      ReceiveKeepsIff(s, e.maxId, ps(e.id), e.id, e.chunk);
      ReceiveIsUpdateIff(s, e.maxId, e.maxId, ps(e.id), e.id, e.chunk);
    }
  }

  ghost predicate IdsIn(es: seq<Entry>, a: int, b: int) {
    forall e :: e in es ==> e.id == a || e.id == b
  }

  lemma {:induction false} TwoAreAtAnEnd(s: Store, a: int, b: int, id: int)
    requires LeftData.Valid(s) && IdsIn(s.list.items, a, b)
    ensures AtAnEnd(s, id)
  {
    var es := s.list.items;
    if |es| > 2 {
      AmongTwo(es[0].id, es[1].id, es[2].id, a, b);
    }
  }

  lemma {:induction false} AmongTwo(x: int, y: int, z: int, a: int, b: int)
    requires (x == a || x == b) && (y == a || y == b) && (z == a || z == b)
    ensures x == y || y == z || x == z
  {
  }

  lemma {:induction false} IdsInKept(s: Store, maxId: int, p: Parser, id: int, chunk: Bytes, a: int, b: int)
    requires LeftData.Valid(s) && IdsIn(s.list.items, a, b) && (id == a || id == b)
    ensures IdsIn(Receive(s, maxId, p, id, chunk).0.list.items, a, b)
  {
    var q := Receive(s, maxId, p, id, chunk).1;
    NoOtherEntries(s, maxId, id, q.rest);
    NoOtherEntries(Get(s, id).0, maxId, id, q.rest);
    hide Get;
    hide Set;
    hide Parse;
  }

  /** With no more than two sockets, every entry stands at an end of the list. */
  lemma {:induction false} TwoSocketsAreCalm(ps: int -> Parser, evs: seq<Recv>, a: int, b: int)
    requires forall i :: 0 <= i < |evs| ==> evs[i].id == a || evs[i].id == b
    ensures Calm(ps, evs) && IdsIn(Run(ps, evs).store.list.items, a, b)
    decreases |evs|
  {
    if evs == [] {
      assert Run(ps, evs).store.list.items == [];
    } else {
      hide Receive;
      hide AtAnEnd;
      hide Calm;
      var n := |evs| - 1;
      TwoSocketsAreCalm(ps, evs[..n], a, b);
      var s := Run(ps, evs[..n]).store;
      TwoAreAtAnEnd(s, a, b, evs[n].id);
      IdsInKept(s, evs[n].maxId, ps(evs[n].id), evs[n].id, evs[n].chunk, a, b);
      OneMore(ps, 0, evs);
    }
  }
}
