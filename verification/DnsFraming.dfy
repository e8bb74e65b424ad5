/** kParserDNS.c:80-112: DNS over TCP, framed as in section 4.2.2 of RFC 1035. */
module DnsFraming {
  import opened Wrappers
  import opened TailList
  import opened LeftData
  import opened Reassembly

  /** The length field: two bytes, high one first. */
  function LengthField(s: Bytes): (n: int)
    requires |s| >= 2
    ensures 0 <= n < 65536
  {
    s[0] as int * 256 + s[1] as int
  }

  /** The size is returned in a short. */
  function AsShort(n: int): int
    requires 0 <= n < 131072
  {
    if n % 65536 < 32768 then n % 65536 else n % 65536 - 65536
  }

  /** With fewer than two bytes the code reads past them, and reports NoMatch whatever it reads. */
  function Dns(s: Bytes): Verdict {
    if |s| < 2 then NoMatch
    else
      var n := LengthField(s) + 2;
      if n > |s| then NoMatch
      else if n < |s| then More(AsShort(n))
      else JustOne(AsShort(n))
  }

  /** No length field of a complete message, on the way through s, exceeds what a short can carry. */
  ghost predicate ShortFields(s: Bytes)
    decreases |s|
  {
    |s| < 2 || LengthField(s) + 2 > |s| ||
      (LengthField(s) + 2 <= MAX_SHORT && ShortFields(s[LengthField(s) + 2..]))
  }

  lemma {:induction false} DnsAt(s: Bytes)
    requires |s| >= 2
    ensures LengthField(s) + 2 > |s| ==> forall k :: 0 <= k <= |s| ==> Dns(s[..k]) == NoMatch
    ensures LengthField(s) + 2 <= |s| && LengthField(s) + 2 <= MAX_SHORT ==> FrameAt(Dns, s, LengthField(s) + 2)
  {
    forall k | 2 <= k <= |s| ensures LengthField(s[..k]) == LengthField(s) {
    }
  }

  lemma {:induction false} DnsUnfolds(s: Bytes)
    ensures |s| < 2 ==> Frames(Dns, s) && ShortFields(s)
    ensures |s| >= 2 ==>
      var n := LengthField(s) + 2;
      && (n > |s| ==> Frames(Dns, s) && ShortFields(s))
      && (n <= |s| && n > MAX_SHORT ==> !Frames(Dns, s) && !ShortFields(s))
      && (n <= |s| && n <= MAX_SHORT ==>
        (Frames(Dns, s) <==> Frames(Dns, s[n..])) && (ShortFields(s) <==> ShortFields(s[n..])))
  {
    if |s| >= 2 {
      DnsAt(s);
      var n := LengthField(s) + 2;
      if n <= |s| && n > MAX_SHORT {
        assert Dns(s[..1]) == NoMatch;
      } else if n == |s| {
        assert s[n..] == [];
      }
    }
  }

  /** The parser cuts a stream as the loop demands exactly when no complete message of it is longer
      than a short can say. */
  lemma {:induction false} DnsFramesIff(s: Bytes)
    ensures Frames(Dns, s) <==> ShortFields(s)
    decreases |s|
  {
    DnsUnfolds(s);
    hide *;
    if |s| >= 2 {
      var n := LengthField(s) + 2;
      if n <= |s| {
        DnsFramesIff(s[n..]);
      }
    }
  }

  // ---------- what the far end sends ----------

  /** One message as it is sent. */
  function Framed(m: Bytes): (r: Bytes)
    requires |m| < 65536
    ensures |r| == |m| + 2
  {
    [|m| / 256, |m| % 256] + m
  }

  function Sent(ms: seq<Bytes>): Bytes
    requires forall i :: 0 <= i < |ms| ==> |ms[i]| < 65536
  {
    if ms == [] then [] else Framed(ms[0]) + Sent(ms[1..])
  }

  function AllFramed(ms: seq<Bytes>): seq<Bytes>
    requires forall i :: 0 <= i < |ms| ==> |ms[i]| < 65536
  {
    seq(|ms|, i requires 0 <= i < |ms| => Framed(ms[i]))
  }

  lemma {:induction false} SentIsParsed(ms: seq<Bytes>)
    requires forall i :: 0 <= i < |ms| ==> |ms[i]| <= MAX_SHORT - 2
    ensures Frames(Dns, Sent(ms)) && Parse(Dns, Sent(ms)) == Parsed(AllFramed(ms), [], true)
  {
    if ms != [] {
      var f, rest := Framed(ms[0]), Sent(ms[1..]);
      SentIsParsed(ms[1..]);
      var s := Sent(ms);
      assert s[..|f|] == f && s[|f|..] == rest;
      assert LengthField(s) == |ms[0]|;
      DnsAt(s);
      assert AllFramed(ms) == [f] + AllFramed(ms[1..]);
      if rest == [] {
        assert s == f;
        SentIsEmpty(ms[1..]);
      }
    }
  }

  lemma {:induction false} SentIsEmpty(ms: seq<Bytes>)
    requires forall i :: 0 <= i < |ms| ==> |ms[i]| < 65536
    requires Sent(ms) == []
    ensures ms == []
  {
  }

  function AllDns(id: int): Parser {
    Dns
  }

  /** DNS messages sent over any number of TCP connections are registered one by one, each with its
      length field in front, with nothing left over, however the connections' bytes are cut into
      segments and interleaved, in every run whose stores find the tail pointer right. */
  lemma {:induction false} EveryDnsMessageArrives(limit: int, evs: seq<Recv>, sent: int -> seq<Bytes>, id: int)
    requires AllFit(AllDns, limit, evs) && AllStoreRight(AllDns, evs) && 1 <= id <= limit
    requires forall k, i :: 1 <= k <= limit && 0 <= i < |sent(k)| ==> |sent(k)[i]| <= MAX_SHORT - 2
    requires forall k :: 1 <= k <= limit ==> Stream(evs, k) == Sent(sent(k))
    ensures var st := Run(AllDns, evs);
      && Delivered(st.out, id) == AllFramed(sent(id))
      && Lookup(st.store.list.items, id) == None
  {
    forall k | 1 <= k <= limit ensures Frames(AllDns(k), Stream(evs, k)) {
      SentIsParsed(sent(k));
    }
    SentIsParsed(sent(id));
    DeliveryIsSegmentationIndependentIff(AllDns, limit, evs);
    ExactNow(AllDns, limit, evs);
  }

  // ---------- where it goes wrong ----------

  /** A message of 32766 bytes: the size of its frame is negative as a short. */
  lemma {:induction false} LongMessageIsNotFramed(s: Bytes)
    requires |s| >= 32768 && LengthField(s) == 32766
    ensures Dns(s) == (if |s| > 32768 then More(-32768) else JustOne(-32768))
    ensures !Frames(Dns, s) && Parse(Dns, s) == Parsed([], [], false)
  {
    assert AsShort(32768) == -32768;
  }

  lemma {:induction false} RunStep(pre: seq<Recv>, e: Recv)
    ensures Run(AllDns, pre + [e]).store == Receive(Run(AllDns, pre).store, e.maxId, Dns, e.id, e.chunk).0
  {
    assert (pre + [e])[..|pre|] == pre;
  }

  lemma {:induction false} FirstByte(s: Store, id: int)
    requires LeftData.Valid(s) && s.num != 3 && Find(s.list.items, id) == |s.list.items|
    ensures Receive(s, 3, Dns, id, [0]).0 == Store(Appended(s.list, Entry(id, [0])), s.num + 1)
  {
    assert Get(s, id).1 + [0] == [0];
  }

  lemma {:induction false} SecondByte(s: Store, id: int)
    requires LeftData.Valid(s) && 0 < s.num <= 3 && Find(s.list.items, id) < |s.list.items|
    requires s.list.items[Find(s.list.items, id)].data == [0]
    ensures Receive(s, 3, Dns, id, [5]).0 == Set(Get(s, id).0, 3, id, [0, 5]).0
  {
    assert Get(s, id).1 + [5] == [0, 5];
  }

  const BYTE1 := Recv(3, 1, [0])
  const BYTE2 := Recv(3, 2, [0])
  const BYTE3 := Recv(3, 3, [0])
  const BYTE4 := Recv(3, 2, [5])

  lemma {:induction false} FirstByteStep(pre: seq<Recv>, e: Recv, s: Store)
    requires Run(AllDns, pre).store == s && e.maxId == 3 && e.chunk == [0]
    requires s.num != 3 && Find(s.list.items, e.id) == |s.list.items|
    ensures LeftData.Valid(s)
    ensures Run(AllDns, pre + [e]).store == Store(Appended(s.list, Entry(e.id, [0])), s.num + 1)
  {
    hide Run;
    hide Receive;
    RunStep(pre, e);
    FirstByte(s, e.id);
  }

  const ONE := Tailed([Entry(1, [0])], 0)
  const TWO := Tailed([Entry(1, [0]), Entry(2, [0])], 1)
  const THREE := Tailed([Entry(1, [0]), Entry(2, [0]), Entry(3, [0])], 2)

  lemma {:induction false} OneFirstByte()
    ensures Run(AllDns, [BYTE1]).store == Store(ONE, 1)
  {
    FirstByteStep([], BYTE1, Store(Empty(), 0));
    assert [] + [BYTE1] == [BYTE1];
  }

  lemma {:induction false} TwoFirstBytes()
    ensures Run(AllDns, [BYTE1, BYTE2]).store == Store(TWO, 2)
  {
    OneFirstByte();
    hide Run;
    FirstByteStep([BYTE1], BYTE2, Store(ONE, 1));
    assert [BYTE1] + [BYTE2] == [BYTE1, BYTE2];
  }

  lemma {:induction false} NoThirdEntry()
    ensures Find(TWO.items, 3) == 2 && Appended(TWO, Entry(3, [0])) == THREE
  {
    assert TWO.items[1..][1..] == [];
    assert TWO.items[..2] == TWO.items;
  }

  lemma {:induction false} ThreeFirstBytes()
    ensures Run(AllDns, [BYTE1, BYTE2, BYTE3]).store == Store(THREE, 3)
  {
    TwoFirstBytes();
    NoThirdEntry();
    hide Run;
    hide Find;
    hide Appended;
    FirstByteStep([BYTE1, BYTE2], BYTE3, Store(TWO, 2));
    assert [BYTE1, BYTE2] + [BYTE3] == [BYTE1, BYTE2, BYTE3];
  }

  lemma {:induction false} ThirdStream()
    ensures Stream([BYTE1, BYTE2, BYTE3, BYTE4], 3) == [0]
  {
    var evs := [BYTE1, BYTE2, BYTE3, BYTE4];
    assert evs[..3] == [BYTE1, BYTE2, BYTE3] && evs[..3][..2] == [BYTE1, BYTE2] && [BYTE1, BYTE2][..1] == [BYTE1];
    assert Stream([BYTE1], 3) == [] && Stream([BYTE1, BYTE2], 3) == [] && Stream(evs[..3], 3) == [0];
  }

  lemma {:induction false} BackToTheMiddle(s: Store, a: Entry, c: Entry)
    requires s == Store(Tailed([a, Entry(2, [0]), c], 2), 3) && a.id == 1 && c.id == 3
    ensures LeftData.Valid(s) && Find(s.list.items, 2) == 1
    ensures Receive(s, 3, Dns, 2, [5]).0 == Store(Tailed([a, Entry(2, [0, 5])], 1), 3)
  {
    assert Find(s.list.items, 2) == 1;
    SecondByte(s, 2);
    hide Receive;
    assert Get(s, 2).0 == Store(Tailed([a, c], 0), 2);
    assert Find([a, c], 2) == 2;
  }

  /** Three connections, each with one byte received; then a second byte on the second one. Taking
      that one's entry out of the middle leaves the tail pointer on the first, and putting it back
      cuts off the third connection's byte. */
  lemma {:induction false} ThirdConnectionLosesItsData()
    ensures Parse(Dns, Stream([BYTE1, BYTE2, BYTE3, BYTE4], 3)) == Parsed([], [0], true)
    ensures Lookup(Run(AllDns, [BYTE1, BYTE2, BYTE3, BYTE4]).store.list.items, 3) == None
  {
    hide Run;
    hide Receive;
    hide Stream;
    ThirdStream();
    ThreeFirstBytes();
    RunStep([BYTE1, BYTE2, BYTE3], BYTE4);
    assert [BYTE1, BYTE2, BYTE3] + [BYTE4] == [BYTE1, BYTE2, BYTE3, BYTE4];
    var s := Run(AllDns, [BYTE1, BYTE2, BYTE3]).store;
    BackToTheMiddle(s, s.list.items[0], s.list.items[2]);
  }
}
