/** CmQueue and CmMatch on the heap: the intrusive rings, and the token trie built from them. */
module TokenHeap {
  import opened Wrappers
  import opened TrieModel
  import opened TrieInsert
  import opened TrieLookup
  import opened TrieRuns

  /** An element of a doubly linked ring. In C++ a CmMatch is a CmQueue; here it has one as its link,
      and `owner` is the downcast. A ring head has no owner. */
  class CmQueue {
    var prev: CmQueue
    var next: CmQueue
    var owner: CmMatch?

    // What a ring head heads: its nodes, every object below it, and the trie they stand for.
    ghost var kids: seq<CmMatch>
    ghost var Repr: set<object>
    ghost var trie: seq<Node>

    constructor (owner: CmMatch?)
      ensures IsRing([this]) && this.owner == owner
      ensures kids == [] && trie == [] && Repr == {this} && ValidHead()
    {
      prev, next := this, this;
      this.owner := owner;
      kids, trie, Repr := [], [], {this};
    }

    method Initialize()
      modifies this`prev, this`next
      ensures IsRing([this])
    {
      prev, next := this, this;
    }

    /** Links q behind this element, which stands at index k of ring s. */
    method Enque(q: CmQueue, ghost s: seq<CmQueue>, ghost k: nat)
      requires IsRing(s) && k < |s| && s[k] == this && q !in s
      modifies this`next, next`prev, q`prev, q`next
      ensures IsRing(Spliced(s, k + 1, q))
    {
      var r := next;
      assert r == s[After(s, k)];
      q.next := r;
      q.prev := this;
      next := q;
      r.prev := q;
      ghost var t := Spliced(s, k + 1, q);
      forall i | 0 <= i < |t| ensures Linked(t[i], t[After(t, i)]) {
        if i < k {
          assert Linked(s[i], s[After(s, i)]);
        } else if i > k + 1 {
          assert Linked(s[i - 1], s[After(s, i - 1)]);
        }
      }
    }

    /** Links q in front of this element. */
    method Insert(q: CmQueue, ghost s: seq<CmQueue>, ghost k: nat)
      requires IsRing(s) && k < |s| && s[k] == this && q !in s
      modifies this`prev, prev`next, q`prev, q`next
      ensures IsRing(Spliced(s, k, q))
    {
      ghost var j := if k == 0 then |s| - 1 else k - 1;
      assert Linked(s[j], s[After(s, j)]);
      prev.Enque(q, s, j);
      if k == 0 {
        assert Spliced(s, |s|, q) == s + [q] && Spliced(s, 0, q) == [q] + s;
        Rotation(s, [q]);
      }
    }

    /** Takes this element out of its ring. */
    method Deque(ghost s: seq<CmQueue>, ghost k: nat)
      requires IsRing(s) && k < |s| && s[k] == this
      modifies this`prev, this`next, prev`next, next`prev
      ensures IsRing([this])
      ensures |s| > 1 ==> IsRing(s[..k] + s[k + 1..])
    {
      ghost var j := if k == 0 then |s| - 1 else k - 1;
      assert Linked(s[j], s[After(s, j)]);
      assert Linked(s[k], s[After(s, k)]);
      var p, r := prev, next;
      p.next := r;
      r.prev := p;
      Initialize();
      ghost var t := s[..k] + s[k + 1..];
      forall i | 0 <= i < |t| ensures Linked(t[i], t[After(t, i)]) {
        if i < k {
          assert t[i] == s[i] && (i != j ==> Linked(s[i], s[After(s, i)]));
        } else {
          assert t[i] == s[i + 1] && (i + 1 != j ==> Linked(s[i + 1], s[After(s, i + 1)]));
        }
      }
    }

    // ---------- rings of trie nodes ----------

    /** The link of node i; the head itself stands before the first and behind the last. */
    ghost function NodeOrHead(i: int): CmQueue
      requires i <= |kids|
      reads this
    {
      if 0 <= i < |kids| then kids[i].link else this
    }

    /** The ring of a head: itself and the links of its nodes. */
    ghost function Ring(): (s: seq<CmQueue>)
      reads this
      ensures |s| == |kids| + 1 && s[0] == this
      ensures forall i :: 0 <= i < |kids| ==> s[i + 1] == kids[i].link
    {
      [this] + Links(kids)
    }

    ghost predicate Apart()
      reads this, kids
    {
      ApartSets(this, Repr, kids, Feet(kids))
    }

    ghost predicate ValidHead()
      reads this, Repr
      decreases Repr, 1
    {
      && (forall i :: 0 <= i < |kids| ==> kids[i] in Repr)
      && Apart()
      && IsRing(Ring())
      && |trie| == |kids|
      && (forall i :: 0 <= i < |kids| ==> kids[i].Valid() && trie[i] == kids[i].Abs())
    }
  }

  ghost function Feet(kids: seq<CmMatch>): (f: seq<set<object>>)
    reads kids
    ensures |f| == |kids| && forall i :: 0 <= i < |kids| ==> f[i] == kids[i].Foot
  {
    seq(|kids|, i requires 0 <= i < |kids| reads kids => kids[i].Foot)
  }

  /** What lies below a node is part of what lies below the head, and nothing lies below two nodes. */
  ghost predicate ApartSets(head: object, repr: set<object>, kids: seq<CmMatch>, feet: seq<set<object>>) {
    && head in repr && |feet| == |kids|
    && (forall i :: 0 <= i < |kids| ==> kids[i] in repr && kids[i].link in repr && kids[i].org in repr)
    && (forall i :: 0 <= i < |kids| ==> feet[i] <= repr && head !in feet[i])
    && (forall i, j :: 0 <= i < j < |kids| ==> feet[i] !! feet[j])
  }

  class CmMatch {
    const link: CmQueue
    const org: CmQueue
    var str: Str
    var token: Option<Token>
    /** This node, its link, and all that lies below it. */
    ghost var Foot: set<object>

    ghost predicate Valid()
      reads this, Foot
      decreases Foot, 0
    {
      && this in Foot && link in Foot && org in Foot
      && org in org.Repr && org.Repr <= Foot && this !in org.Repr && link !in org.Repr
      && link.owner == this && org.ValidHead()
    }

    ghost function Abs(): Node
      reads this, org
    {
      Node(str, token, org.trie)
    }

    constructor (token: Option<Token>, str: Str)
      ensures this.token == token && this.str == str
      ensures Valid() && fresh(Foot - {this}) && IsRing([link])
      ensures org.kids == [] && org.trie == []
    {
      this.token, this.str := token, str;
      link := new CmQueue(null);
      org := new CmQueue(null);
      new;
      link.owner := this;
      Foot := {this, link, org};
    }
  }

  ghost predicate Linked(p: CmQueue, q: CmQueue)
    reads p, q
  {
    p.next == q && q.prev == p
  }

  /** The elements of s, in this order, form a ring. */
  ghost predicate IsRing(s: seq<CmQueue>)
    reads s
  {
    && s != []
    && (forall i, j :: 0 <= i < j < |s| ==> s[i] != s[j])
    && (forall i :: 0 <= i < |s| ==> Linked(s[i], s[After(s, i)]))
  }

  ghost function After(s: seq<CmQueue>, i: nat): (j: nat)
    requires i < |s|
    ensures j < |s|
  {
    if i + 1 < |s| then i + 1 else 0
  }

  ghost function Spliced(s: seq<CmQueue>, k: nat, q: CmQueue): seq<CmQueue>
    requires k <= |s|
  {
    s[..k] + [q] + s[k..]
  }

  /** A ring has no first element. */
  lemma {:induction false} Rotation(a: seq<CmQueue>, b: seq<CmQueue>)
    requires IsRing(a + b)
    ensures IsRing(b + a)
  {
    var s, t := a + b, b + a;
    forall i | 0 <= i < |t| ensures Linked(t[i], t[After(t, i)]) {
      var k := if i < |b| then i + |a| else i - |b|;
      assert Linked(s[k], s[After(s, k)]);
      assert s[k] == t[i] && s[After(s, k)] == t[After(t, i)];
    }
    forall i, j | 0 <= i < j < |t| ensures t[i] != t[j] {
      var k, l := if i < |b| then i + |a| else i - |b|, if j < |b| then j + |a| else j - |b|;
      assert s[k] == t[i] && s[l] == t[j];
    }
  }

  ghost function Links(kids: seq<CmMatch>): (s: seq<CmQueue>)
    ensures |s| == |kids| && forall i :: 0 <= i < |kids| ==> s[i] == kids[i].link
  {
    seq(|kids|, i requires 0 <= i < |kids| => kids[i].link)
  }

  // ---------- lookup ----------

  /** From the head or node i - 1, the next pointer leads to node i, or back to the head, and the
      previous pointer there leads back. */
  lemma {:induction false} RingStep(org: CmQueue, i: nat)
    requires org.ValidHead() && i <= |org.kids|
    ensures Linked(org.NodeOrHead(i - 1), org.NodeOrHead(i))
    ensures i < |org.kids| ==>
      && org.kids[i].link != org && org.kids[i].Valid() && i < |org.trie| && org.trie[i] == org.kids[i].Abs()
    ensures |org.trie| == |org.kids|
  {
    var s := org.Ring();
    assert Linked(s[i], s[After(s, i)]);
  }

  /** equalInitial: walks the ring. */
  method EqualInitialOf(org: CmQueue, ts: Str) returns (m: CmMatch?, ghost i: nat)
    requires org.ValidHead() && Proper(org.trie)
    ensures i == EqualInitial(org.trie, ts) && |org.kids| == |org.trie|
    ensures m == if EqualInitial(org.trie, ts) < |org.kids| then org.kids[EqualInitial(org.trie, ts)] else null
    ensures m != null ==> m.Valid() && m.Abs() == org.trie[i]
  {
    hide CmQueue.ValidHead;
    RingStep(org, 0);
    var p := org.next;
    i := 0;
    while p != org
      invariant i <= |org.kids| == |org.trie| && p == org.NodeOrHead(i)
      invariant forall j :: 0 <= j < i ==> Initial(org.trie[j].str) != Initial(ts)
      decreases |org.kids| - i
    {
      RingStep(org, i);
      if Initial(ts) == Initial(p.owner.str) {
        FirstEqual(org.trie, ts, i);
        return p.owner, i;
      }
      RingStep(org, i + 1);
      p := p.next;
      i := i + 1;
    }
    RingStep(org, i);
    FirstEqual(org.trie, ts, i);
    m := null;
  }

  lemma {:induction false} FirstEqual(ring: seq<Node>, ts: Str, i: nat)
    requires Proper(ring) && i <= |ring|
    requires forall j :: 0 <= j < i ==> Initial(ring[j].str) != Initial(ts)
    requires i < |ring| ==> Initial(ring[i].str) == Initial(ts)
    ensures EqualInitial(ring, ts) == i
  {
  }

  /** The comparison loop shared by findMatchString and matchTokenString. */
  method CommonPrefix(ms: Str, ts: Str) returns (l: nat)
    ensures l == Common(ms, ts)
    ensures l == |ms| <==> ms <= ts
  {
    l := 0;
    while l < |ms| && l < |ts| && ms[l] == ts[l]
      invariant l <= |ms| && l <= |ts| && forall j :: 0 <= j < l ==> ms[j] == ts[j]
    {
      l := l + 1;
    }
    CommonIsUnique(ms, ts, l);
  }

  lemma {:induction false} CommonIsUnique(a: Str, b: Str, l: nat)
    requires l <= |a| && l <= |b| && forall j :: 0 <= j < l ==> a[j] == b[j]
    requires l < |a| && l < |b| ==> a[l] != b[l]
    ensures Common(a, b) == l
  {
  }

  method FindMatchStringOf(n: CmMatch, ts: Str) returns (r: CmMatch?, ghost at: seq<nat>)
    requires n.Valid() && Fine(n.Abs())
    ensures r != null ==> r.Valid()
    ensures FindMatchString(n.Abs(), ts) == if r == null then None else Some(Hit(at, r.Abs()))
    decreases |ts|, if n.str == [] then 1 else 2
  {
    hide CmQueue.ValidHead;
    var l := CommonPrefix(n.str, ts);
    if l < |n.str| {
      return null, [];
    }
    var rest := ts[l..];
    ghost var node := n.Abs();
    var child, at0 := FindStringOf(n.org, rest);
    if child != null {
      assert FindString(node.kids, rest) == Some(Hit(at0, child.Abs()));
      var lm, at1 := FindMatchStringOf(child, rest);
      if lm != null {
        return lm, at0 + at1;
      }
    }
    assert FindMatchString(node, ts) == Some(Hit([], node));
    return n, [];
  }

  method FindStringOf(org: CmQueue, ts: Str) returns (r: CmMatch?, ghost at: seq<nat>)
    requires org.ValidHead() && Proper(org.trie)
    ensures r != null ==> r.Valid()
    ensures FindString(org.trie, ts) == if r == null then None else Some(Hit(at, r.Abs()))
    decreases |ts|, if org.trie == [] then 0 else 3
  {
    hide CmQueue.ValidHead;
    var m, i := EqualInitialOf(org, ts);
    if m == null {
      return null, [];
    }
    var lm, at0 := FindMatchStringOf(m, ts);
    return lm, [i] + at0;
  }

  /** findToken on the heap returns what the lookup function of the trie returns. */
  method FindTokenOf(org: CmQueue, s: Str) returns (t: Option<Token>)
    requires org.ValidHead() && Proper(org.trie)
    ensures t == FindToken(org.trie, s)
  {
    hide CmQueue.ValidHead;
    var lm, _ := FindStringOf(org, s);
    t := if lm != null then lm.token else None;
  }

  // ---------- insertion ----------

  /** greaterEqualInitial: the first node that does not start below c, or the head. */
  method GreaterEqualInitialOf(org: CmQueue, c: int) returns (p: CmQueue, ghost i: nat)
    requires org.ValidHead() && Proper(org.trie)
    ensures i == GreaterEqualInitial(org.trie, c) && |org.kids| == |org.trie|
    ensures p == org.NodeOrHead(i)
    ensures if i < |org.kids| then p != org && p.owner == org.kids[i] && p.owner.Abs() == org.trie[i] else p == org
  {
    hide CmQueue.ValidHead;
    RingStep(org, 0);
    p := org.next;
    i := 0;
    while p != org
      invariant i <= |org.kids| == |org.trie| && p == org.NodeOrHead(i)
      invariant forall j :: 0 <= j < i ==> Initial(org.trie[j].str) < c
      decreases |org.kids| - i
    {
      RingStep(org, i);
      if c <= Initial(p.owner.str) {
        FirstNotBelow(org.trie, c, i);
        return;
      }
      RingStep(org, i + 1);
      p := p.next;
      i := i + 1;
    }
    RingStep(org, i);
    FirstNotBelow(org.trie, c, i);
  }

  lemma {:induction false} FirstNotBelow(ring: seq<Node>, c: int, i: nat)
    requires Proper(ring) && i <= |ring|
    requires forall j :: 0 <= j < i ==> Initial(ring[j].str) < c
    requires i < |ring| ==> c <= Initial(ring[i].str)
    ensures GreaterEqualInitial(ring, c) == i
  {
  }

  ghost predicate NodesOk(kids: seq<CmMatch>, trie: seq<Node>)
    reads kids, set k, o | k in kids && o in k.Foot :: o, set k | k in kids :: k.org
  {
    |trie| == |kids| && forall i :: 0 <= i < |kids| ==> kids[i].Valid() && trie[i] == kids[i].Abs()
  }

  lemma {:induction false} FootOf(n: CmMatch)
    requires n.Valid()
    ensures {n, n.link, n.org} <= n.Foot && n.org.Repr <= n.Foot && n.link !in n.org.Repr && n.link.owner == n
  {
    hide CmQueue.ValidHead;
  }

  lemma {:induction false} HeadParts(h: CmQueue)
    requires h.ValidHead()
    ensures h.Apart() && NodesOk(h.kids, h.trie) && IsRing(h.Ring())
  {
  }

  lemma {:induction false} LinkOutside(h: CmQueue, i: nat, j: nat)
    requires h.Apart() && NodesOk(h.kids, h.trie) && i <= |h.kids| && j < |h.kids|
    ensures h.Ring()[i] !in h.kids[j].org.Repr && h.Ring()[i] in h.Repr
  {
    hide CmQueue.ValidHead;
    var feet := Feet(h.kids);
    FootOf(h.kids[j]);
    if i > 0 {
      FootOf(h.kids[i - 1]);
      assert i - 1 < j ==> feet[i - 1] !! feet[j];
      assert j < i - 1 ==> feet[j] !! feet[i - 1];
    }
  }

  lemma {:induction false} HeadFacts(h: CmQueue)
    requires h.ValidHead()
    ensures HeadOk(h) && IsRing(h.Ring()) && h in h.Repr
  {
    HeadParts(h);
    hide CmQueue.ValidHead;
    hide IsRing;
    hide NodesOk;
    forall i, j | 0 <= i < |h.Ring()| && 0 <= j < |h.kids| ensures h.Ring()[i] !in h.kids[j].org.Repr {
      LinkOutside(h, i, j);
    }
  }

  lemma {:induction false} RingInside(h: CmQueue)
    requires HeadOk(h) && h in h.Repr
    ensures forall q :: q in h.Ring() ==> q in h.Repr
  {
    hide CmQueue.ValidHead;
    hide NodesOk;
    hide IsRing;
  }

  lemma {:induction false} PrevInRing(s: seq<CmQueue>, k: nat)
    requires IsRing(s) && k < |s|
    ensures s[k].prev in s && s[k].next in s
  {
    var j := if k == 0 then |s| - 1 else k - 1;
    assert Linked(s[j], s[After(s, j)]) && Linked(s[k], s[After(s, k)]);
  }

  /** A node below which nothing has changed is as it was. */
  twostate lemma {:induction false} NodeKept(n: CmMatch)
    requires old(n.Valid())
    requires n.Foot == old(n.Foot) && n.link.owner == old(n.link.owner)
    requires forall o :: o in old(n.org.Repr) ==> unchanged(o)
    ensures n.Valid() && n.org.trie == old(n.org.trie)
    ensures n.str == old(n.str) && n.token == old(n.token) ==> n.Abs() == old(n.Abs())
  {
    hide CmQueue.ValidHead;
    assert unchanged(n.org);
  }

  lemma {:induction false} LinksInserted(kids: seq<CmMatch>, i: nat, lm: CmMatch)
    requires i <= |kids|
    ensures Links(kids[..i] + [lm] + kids[i..]) == Links(kids)[..i] + [lm.link] + Links(kids)[i..]
  {
  }

  lemma {:induction false} RingInserted(h: CmQueue, links: seq<CmQueue>, i: nat, q: CmQueue)
    requires i <= |links| && IsRing(Spliced([h] + links, if i < |links| then i + 1 else 0, q))
    ensures IsRing([h] + (links[..i] + [q] + links[i..]))
  {
    var s := [h] + links;
    if i < |links| {
      assert Spliced(s, i + 1, q) == [h] + (links[..i] + [q] + links[i..]);
    } else {
      assert Spliced(s, 0, q) == [q] + s;
      Rotation([q], s);
      assert s + [q] == [h] + (links[..i] + [q] + links[i..]);
    }
  }

  twostate lemma {:induction false} RingKept(s: seq<CmQueue>)
    requires old(IsRing(s))
    requires forall q :: q in s ==> q.prev == old(q.prev) && q.next == old(q.next)
    ensures IsRing(s)
  {
  }

  ghost predicate HeadOk(h: CmQueue)
    reads *
  {
    && h.Apart() && NodesOk(h.kids, h.trie)
    && (forall q, i :: q in h.Ring() && 0 <= i < |h.kids| ==> q !in h.kids[i].org.Repr)
  }

  /** When only the pointers of a ring's own links have changed, its nodes are as they were. */
  twostate lemma {:induction false} NodesKept(h: CmQueue)
    requires old(HeadOk(h)) && h.kids == old(h.kids) && h.trie == old(h.trie) && h.Repr == old(h.Repr)
    requires forall o :: o in old(h.Repr) && o !in old(h.Ring()) ==> unchanged(o)
    requires forall i :: 0 <= i < |h.kids| ==> h.kids[i].link.owner == h.kids[i]
    ensures h.Apart() && NodesOk(h.kids, h.trie)
  {
    hide CmQueue.ValidHead;
    hide IsRing;
    forall i | 0 <= i < |h.kids|
      ensures h.kids[i].Valid() && h.kids[i].Abs() == old(h.kids[i].Abs()) && h.kids[i].Foot == old(h.kids[i].Foot)
    {
      assert old(h.kids[i].Valid());
      NodeKept(h.kids[i]);
    }
    assert Feet(h.kids) == old(Feet(h.kids));
  }

  method InsertIn(q: CmQueue, x: CmQueue, ghost s: seq<CmQueue>, ghost k: nat)
    requires IsRing(s) && k < |s| && s[k] == q && x !in s
    modifies s`prev, s`next, x`prev, x`next
    ensures IsRing(Spliced(s, k, x))
  {
    PrevInRing(s, k);
    q.Insert(x, s, k);
  }

  /** q->insert(lm) changes no node, only links. */
  method LinkNode(h: CmQueue, q: CmQueue, ghost s: seq<CmQueue>, ghost k: nat, lm: CmMatch)
    requires h.ValidHead() && lm.Valid() && lm.Foot !! h.Repr
    requires s == h.Ring() && k < |s| && q == s[k]
    modifies s`prev, s`next, lm.link`prev, lm.link`next
    ensures IsRing(Spliced(s, k, lm.link))
    ensures h.Apart() && NodesOk(h.kids, h.trie) && lm.Valid() && lm.Abs() == old(lm.Abs())
  {
    hide CmQueue.ValidHead;
    hide IsRing;
    HeadFacts(h);
    RingInside(h);
    FootOf(lm);
    forall i | 0 <= i < |h.kids| ensures h.kids[i].link.owner == h.kids[i] {
      assert h.kids[i].Valid();
    }
    hide HeadOk;
    hide CmMatch.Valid;
    hide CmQueue.Apart;
    hide NodesOk;
    hide Spliced;
    InsertIn(q, lm.link, s, k);
    forall o | o in old(h.Repr) && o !in s ensures unchanged(o) {
      assert o != lm.link;
    }
    forall o | o in old(lm.org.Repr) ensures unchanged(o) {
      assert o !in s && o != lm.link;
    }
    NodeKept(lm);
    NodesKept(h);
  }

  /** The node asked for by number is the one at its place in the ring. */
  lemma {:induction false} NodeInRing(h: CmQueue, i: nat)
    requires i <= |h.kids|
    ensures h.NodeOrHead(i) == h.Ring()[if i < |h.kids| then i + 1 else 0]
    ensures h.Ring() == [h] + Links(h.kids)
  {
  }

  /** The same, seen from the head. */
  method LinkAt(h: CmQueue, q: CmQueue, ghost links: seq<CmQueue>, ghost i: nat, lm: CmMatch)
    requires h.ValidHead() && lm.Valid() && lm.Foot !! h.Repr
    requires i <= |links| == |h.kids| && links == Links(h.kids) && q == h.NodeOrHead(i)
    modifies h, h.Repr, lm.link`prev, lm.link`next
    ensures IsRing([h] + (links[..i] + [lm.link] + links[i..]))
    ensures h.kids == old(h.kids) && h.trie == old(h.trie) && h.Repr == old(h.Repr)
    ensures lm.Foot == old(lm.Foot) && lm.Abs() == old(lm.Abs())
    ensures h.Apart() && NodesOk(h.kids, h.trie) && lm.Valid()
  {
    hide CmQueue.ValidHead;
    hide IsRing;
    hide HeadOk;
    hide CmQueue.Apart;
    hide NodesOk;
    hide CmMatch.Valid;
    hide CmQueue.Ring;
    hide Links;
    hide CmQueue.NodeOrHead;
    HeadFacts(h);
    RingInside(h);
    NodeInRing(h, i);
    LinkNode(h, q, h.Ring(), if i < |h.kids| then i + 1 else 0, lm);
    RingInserted(h, links, i, lm.link);
  }

  lemma {:induction false} HeadFrom(h: CmQueue, repr: set<object>, kids: seq<CmMatch>, feet: seq<set<object>>,
      links: seq<CmQueue>)
    requires h.Repr == repr && h.kids == kids && Feet(kids) == feet && Links(kids) == links
    requires ApartSets(h, repr, kids, feet) && IsRing([h] + links) && NodesOk(kids, h.trie)
    ensures h.ValidHead()
  {
  }

  lemma {:induction false} ApartInserted(head: object, repr: set<object>, kids: seq<CmMatch>, feet: seq<set<object>>,
      i: nat, lm: CmMatch, foot: set<object>)
    requires ApartSets(head, repr, kids, feet) && i <= |kids| && foot !! repr
    requires lm in foot && lm.link in foot && lm.org in foot
    ensures ApartSets(head, repr + foot, kids[..i] + [lm] + kids[i..], feet[..i] + [foot] + feet[i..])
  {
  }

  /** q->insert(lm), q being node i of the ring or the head. */
  method InsertNode(h: CmQueue, q: CmQueue, ghost i: nat, lm: CmMatch)
    requires h.ValidHead() && lm.Valid() && lm.Foot !! h.Repr
    requires i <= |h.kids| && q == h.NodeOrHead(i)
    modifies h, h.Repr, lm.link`prev, lm.link`next
    ensures h.ValidHead() && h.Repr == old(h.Repr) + lm.Foot
    ensures h.kids == old(h.kids[..i] + [lm] + h.kids[i..])
    ensures h.trie == Inserted(old(h.trie), i, lm.Abs())
    ensures lm.Valid() && lm.Abs() == old(lm.Abs()) && lm.Foot == old(lm.Foot)
  {
    hide CmQueue.ValidHead;
    hide IsRing;
    hide CmQueue.Apart;
    hide NodesOk;
    hide CmMatch.Valid;
    hide Links;
    LinkAt(h, q, Links(h.kids), i, lm);
    AdoptNode(h, i, lm);
  }

  /** The ghost half of an insertion: the head takes note of its new node. */
  ghost method AdoptNode(h: CmQueue, i: nat, lm: CmMatch)
    requires h.Apart() && NodesOk(h.kids, h.trie) && lm.Valid() && lm.Foot !! h.Repr && i <= |h.kids|
    requires IsRing([h] + (Links(h.kids)[..i] + [lm.link] + Links(h.kids)[i..]))
    modifies h`kids, h`trie, h`Repr
    ensures h.ValidHead() && h.Repr == old(h.Repr) + lm.Foot
    ensures h.kids == old(h.kids[..i] + [lm] + h.kids[i..])
    ensures h.trie == Inserted(old(h.trie), i, lm.Abs())
    ensures lm.Valid() && lm.Abs() == old(lm.Abs()) && lm.Foot == old(lm.Foot)
  {
    hide CmQueue.ValidHead;
    hide IsRing;
    var kids, trie, repr, n := h.kids, h.trie, h.Repr, lm.Abs();
    h.kids := kids[..i] + [lm] + kids[i..];
    h.trie := Inserted(trie, i, n);
    h.Repr := repr + lm.Foot;
    NodeKept(lm);
    forall j | 0 <= j < |kids| ensures kids[j].Valid() && kids[j].Abs() == trie[j] {
      assert old(kids[j].Valid());
      NodeKept(kids[j]);
    }
    assert NodesOk(kids, trie);
    NodesInserted(kids, trie, i, lm);
    FeetInserted(kids, i, lm);
    ApartInserted(h, repr, kids, Feet(kids), i, lm, lm.Foot);
    LinksInserted(kids, i, lm);
    RingKept([h] + (Links(kids)[..i] + [lm.link] + Links(kids)[i..]));
    HeadFrom(h, repr + lm.Foot, kids[..i] + [lm] + kids[i..],
             Feet(kids)[..i] + [lm.Foot] + Feet(kids)[i..], Links(kids)[..i] + [lm.link] + Links(kids)[i..]);
  }

  lemma {:induction false} NodesInserted(kids: seq<CmMatch>, trie: seq<Node>, i: nat, lm: CmMatch)
    requires NodesOk(kids, trie) && lm.Valid() && i <= |kids|
    ensures NodesOk(kids[..i] + [lm] + kids[i..], Inserted(trie, i, lm.Abs()))
  {
    hide CmQueue.ValidHead;
    hide CmMatch.Valid;
  }

  lemma {:induction false} FeetInserted(kids: seq<CmMatch>, i: nat, lm: CmMatch)
    requires i <= |kids|
    ensures Feet(kids[..i] + [lm] + kids[i..]) == Feet(kids)[..i] + [lm.Foot] + Feet(kids)[i..]
  {
  }

  lemma {:induction false} ApartRemoved(head: object, repr: set<object>, kids: seq<CmMatch>, feet: seq<set<object>>,
      i: nat)
    requires ApartSets(head, repr, kids, feet) && i < |kids|
    requires forall j :: 0 <= j < |kids| ==> kids[j] in feet[j] && kids[j].link in feet[j] && kids[j].org in feet[j]
    ensures ApartSets(head, repr - feet[i], kids[..i] + kids[i + 1..], feet[..i] + feet[i + 1..])
  {
    var kids', feet' := kids[..i] + kids[i + 1..], feet[..i] + feet[i + 1..];
    forall j | 0 <= j < |kids'|
      ensures feet'[j] !! feet[i] && kids'[j] in feet'[j] && kids'[j].link in feet'[j] && kids'[j].org in feet'[j]
    {
      var k := if j < i then j else j + 1;
      assert kids'[j] == kids[k] && feet'[j] == feet[k];
    }
  }

  lemma {:induction false} RingRemoved(h: CmQueue, links: seq<CmQueue>, i: nat)
    requires i < |links| && IsRing(([h] + links)[..i + 1] + ([h] + links)[i + 2..])
    ensures IsRing([h] + (links[..i] + links[i + 1..]))
  {
    assert ([h] + links)[..i + 1] + ([h] + links)[i + 2..] == [h] + (links[..i] + links[i + 1..]);
  }

  method DequeFrom(q: CmQueue, ghost s: seq<CmQueue>, ghost k: nat)
    requires IsRing(s) && k < |s| && s[k] == q
    modifies s`prev, s`next
    ensures IsRing([q]) && (|s| > 1 ==> IsRing(s[..k] + s[k + 1..]))
  {
    PrevInRing(s, k);
    q.Deque(s, k);
  }

  lemma {:induction false} OwnersOf(h: CmQueue)
    requires NodesOk(h.kids, h.trie)
    ensures forall j :: 0 <= j < |h.kids| ==> h.kids[j].link.owner == h.kids[j]
  {
    hide CmQueue.ValidHead;
    assert forall j :: 0 <= j < |h.kids| ==> h.kids[j].Valid();
  }

  method UnlinkNode(h: CmQueue, m: CmMatch, ghost s: seq<CmQueue>, ghost i: nat)
    requires h.ValidHead() && s == h.Ring() && i < |h.kids| && m == h.kids[i]
    modifies s`prev, s`next
    ensures IsRing(s[..i + 1] + s[i + 2..]) && IsRing([m.link])
    ensures h.Apart() && NodesOk(h.kids, h.trie)
  {
    hide CmQueue.ValidHead;
    hide IsRing;
    hide HeadOk;
    hide CmQueue.Apart;
    hide NodesOk;
    hide CmMatch.Valid;
    hide CmQueue.Ring;
    hide Links;
    HeadParts(h);
    HeadFacts(h);
    RingInside(h);
    OwnersOf(h);
    assert m.link == s[i + 1];
    DequeFrom(m.link, s, i + 1);
    forall o | o in old(h.Repr) && o !in s ensures unchanged(o) {
    }
    NodesKept(h);
  }

  /** The same, seen from the head. */
  method UnlinkAt(h: CmQueue, m: CmMatch, ghost links: seq<CmQueue>, ghost i: nat)
    requires h.ValidHead() && links == Links(h.kids) && i < |h.kids| && m == h.kids[i]
    modifies h, h.Repr
    ensures IsRing([h] + (links[..i] + links[i + 1..])) && IsRing([m.link])
    ensures h.Apart() && NodesOk(h.kids, h.trie)
    ensures h.kids == old(h.kids) && h.trie == old(h.trie) && h.Repr == old(h.Repr)
    ensures m.Foot == old(m.Foot) && m.Abs() == old(m.Abs())
  {
    hide CmQueue.ValidHead;
    hide IsRing;
    HeadFacts(h);
    RingInside(h);
    hide HeadOk;
    hide CmQueue.Apart;
    hide NodesOk;
    UnlinkNode(h, m, h.Ring(), i);
    RingRemoved(h, links, i);
  }

  lemma {:induction false} NodesRemoved(kids: seq<CmMatch>, trie: seq<Node>, i: nat)
    requires NodesOk(kids, trie) && i < |kids|
    ensures NodesOk(kids[..i] + kids[i + 1..], Without(trie, i))
    ensures Feet(kids[..i] + kids[i + 1..]) == Feet(kids)[..i] + Feet(kids)[i + 1..]
    ensures Links(kids[..i] + kids[i + 1..]) == Links(kids)[..i] + Links(kids)[i + 1..]
  {
    hide CmQueue.ValidHead;
    hide CmMatch.Valid;
  }

  lemma {:induction false} FootHoldsNode(kids: seq<CmMatch>, trie: seq<Node>)
    requires NodesOk(kids, trie)
    ensures forall j :: 0 <= j < |kids| ==>
      kids[j] in kids[j].Foot && kids[j].link in kids[j].Foot && kids[j].org in kids[j].Foot
  {
    hide CmQueue.ValidHead;
  }

  ghost method ForgetNode(h: CmQueue, i: nat)
    requires h.Apart() && NodesOk(h.kids, h.trie) && i < |h.kids|
    requires IsRing([h] + (Links(h.kids)[..i] + Links(h.kids)[i + 1..]))
    modifies h`kids, h`trie, h`Repr
    ensures h.ValidHead() && h.Repr == old(h.Repr - h.kids[i].Foot)
    ensures h.kids == old(h.kids[..i] + h.kids[i + 1..]) && h.trie == Without(old(h.trie), i)
    ensures var m := old(h.kids[i]);
      m.Valid() && m.Abs() == old(m.Abs()) && m.Foot == old(m.Foot)
  {
    hide CmQueue.ValidHead;
    hide IsRing;
    var kids, trie, repr := h.kids, h.trie, h.Repr;
    var feet := Feet(kids);
    FootHoldsNode(kids, trie);
    ApartRemoved(h, repr, kids, feet, i);
    h.kids := kids[..i] + kids[i + 1..];
    h.trie := Without(trie, i);
    h.Repr := repr - kids[i].Foot;
    forall j | 0 <= j < |kids| ensures kids[j].Valid() && kids[j].Abs() == trie[j] {
      assert old(kids[j].Valid());
      NodeKept(kids[j]);
    }
    assert NodesOk(kids, trie);
    NodesRemoved(kids, trie, i);
    assert Feet(kids) == feet;
    RingKept([h] + (Links(kids)[..i] + Links(kids)[i + 1..]));
    HeadFrom(h, repr - kids[i].Foot, kids[..i] + kids[i + 1..], feet[..i] + feet[i + 1..],
             Links(kids)[..i] + Links(kids)[i + 1..]);
  }

  /** deque: takes node i out of the ring. */
  method RemoveNode(h: CmQueue, m: CmMatch, ghost i: nat)
    requires h.ValidHead() && i < |h.kids| && m == h.kids[i]
    modifies h, h.Repr
    ensures h.ValidHead() && h.Repr == old(h.Repr - m.Foot)
    ensures h.kids == old(h.kids[..i] + h.kids[i + 1..]) && h.trie == Without(old(h.trie), i)
    ensures m.Valid() && m.Abs() == old(m.Abs()) && m.Foot == old(m.Foot)
    ensures IsRing([m.link])
  {
    hide CmQueue.ValidHead;
    hide IsRing;
    hide CmQueue.Apart;
    hide NodesOk;
    hide CmMatch.Valid;
    hide Links;
    UnlinkAt(h, m, Links(h.kids), i);
    label Unlinked:
    ForgetNode(h, i);
    RingKept@Unlinked([m.link]);
  }

  /** What is known of node m of a head while something below m has changed. */
  ghost predicate Renewed(h: CmQueue, m: CmMatch)
    reads *
  {
    && m in m.Foot && m.link in m.Foot && m.org in m.Foot && m.link.owner == m
    && m.org in m.org.Repr && m !in m.org.Repr && m.link !in m.org.Repr && m.org.ValidHead()
    && h !in m.org.Repr && (forall o :: o in m.org.Repr && o !in m.Foot ==> o !in h.Repr)
  }

  ghost predicate OthersOk(kids: seq<CmMatch>, trie: seq<Node>, i: nat)
    reads *
  {
    |trie| == |kids| && forall j :: 0 <= j < |kids| && j != i ==> kids[j].Valid() && trie[j] == kids[j].Abs()
  }

  /** A head below which nothing has changed is as it was. */
  twostate lemma {:induction false} HeadKept(h: CmQueue)
    requires old(h.ValidHead() && h in h.Repr)
    requires forall o :: o in old(h.Repr) ==> unchanged(o)
    ensures h.ValidHead() && h.trie == old(h.trie) && h.Repr == old(h.Repr)
  {
    hide CmQueue.ValidHead;
    assert unchanged(h);
  }

  lemma {:induction false} RenewedFacts(h: CmQueue, i: nat, m: CmMatch)
    requires i < |h.kids| && m == h.kids[i] && Renewed(h, m) && h.Apart() && OthersOk(h.kids, h.trie, i)
    ensures ApartSets(h, h.Repr + m.org.Repr, h.kids, Feet(h.kids)[i := m.Foot + m.org.Repr])
    ensures |h.trie| == |h.kids| && m.org.ValidHead() && m.org in m.org.Repr && m !in m.org.Repr && h !in m.org.Repr
    ensures forall j :: 0 <= j < |h.kids| && j != i ==>
      && m !in h.kids[j].org.Repr && h !in h.kids[j].org.Repr && h.kids[j] != m
      && h.kids[j].Valid() && h.trie[j] == h.kids[j].Abs()
  {
    hide CmQueue.ValidHead;
    ApartGrows(h, h.Repr, h.kids, Feet(h.kids), i, m.org.Repr);
    forall j | 0 <= j < |h.kids| && j != i ensures m !in h.kids[j].Foot && h.kids[j].Valid() {
      if j < i {
        assert Feet(h.kids)[j] !! Feet(h.kids)[i];
      } else {
        assert Feet(h.kids)[i] !! Feet(h.kids)[j];
      }
    }
  }

  /** A node's footprint is brought up to date; its siblings are not concerned. */
  ghost method GrowFoot(h: CmQueue, i: nat, m: CmMatch)
    requires i < |h.kids| && m == h.kids[i] && Renewed(h, m) && h.Apart() && OthersOk(h.kids, h.trie, i)
    modifies m`Foot
    ensures NodesOk(h.kids, h.trie[i := m.Abs()])
    ensures ApartSets(h, h.Repr + m.org.Repr, h.kids, Feet(h.kids))
    ensures forall j :: 0 <= j < |h.kids| ==> h !in h.kids[j].org.Repr
  {
    hide CmQueue.ValidHead;
    ghost var feet := Feet(h.kids);
    RenewedFacts(h, i, m);
    hide CmQueue.Apart;
    hide ApartSets;
    m.Foot := m.Foot + m.org.Repr;
    HeadKept(m.org);
    forall j | 0 <= j < |h.kids| && j != i ensures h.kids[j].Valid() && h.trie[j] == h.kids[j].Abs() {
      NodeKept(h.kids[j]);
    }
    assert m.Valid();
    assert Feet(h.kids) == feet[i := m.Foot];
  }

  /** Nodes below which nothing has changed, and whose own fields have not, are as they were. */
  twostate lemma {:induction false} NodesUnder(kids: seq<CmMatch>, new trie: seq<Node>)
    requires old(NodesOk(kids, trie))
    requires forall j :: 0 <= j < |kids| ==> unchanged(kids[j]) && kids[j].link.owner == old(kids[j].link.owner)
    requires forall j, o :: 0 <= j < |kids| && o in old(kids[j].org.Repr) ==> unchanged(o)
    ensures NodesOk(kids, trie) && Feet(kids) == old(Feet(kids))
  {
    hide CmQueue.ValidHead;
    forall j | 0 <= j < |kids|
      ensures kids[j].Valid() && kids[j].Abs() == old(kids[j].Abs()) && kids[j].Foot == old(kids[j].Foot)
    {
      assert old(kids[j].Valid());
      NodeKept(kids[j]);
    }
  }

  /** A head takes note of the trie and the objects below it. */
  ghost method UpdateHead(h: CmQueue, repr: set<object>, trie: seq<Node>)
    requires NodesOk(h.kids, trie) && ApartSets(h, repr, h.kids, Feet(h.kids)) && IsRing(h.Ring())
    requires forall j :: 0 <= j < |h.kids| ==> h !in h.kids[j].org.Repr
    modifies h`trie, h`Repr
    ensures h.ValidHead() && h.Repr == repr && h.trie == trie
  {
    hide CmQueue.ValidHead;
    hide IsRing;
    hide CmQueue.Ring;
    hide Links;
    hide NodesOk;
    hide CmMatch.Valid;
    hide ApartSets;
    hide Feet;
    hide Linked;
    NodeInRing(h, 0);
    ghost var kids, feet, links := h.kids, Feet(h.kids), Links(h.kids);
    h.trie := trie;
    h.Repr := repr;
    forall j, o | 0 <= j < |kids| && o in old(kids[j].org.Repr) ensures unchanged(o) {
      assert o != h;
    }
    NodesUnder(kids, trie);
    RingKept([h] + links);
    HeadFrom(h, repr, kids, feet, links);
  }

  lemma {:induction false} ApartGrows(head: object, repr: set<object>, kids: seq<CmMatch>, feet: seq<set<object>>,
      i: nat, more: set<object>)
    requires ApartSets(head, repr, kids, feet) && i < |kids| && head !in more
    requires forall o :: o in more && o !in feet[i] ==> o !in repr
    ensures ApartSets(head, repr + more, kids, feet[i := feet[i] + more])
  {
  }

  /** The nodes of a head when nothing but fields of node i has changed. */
  twostate lemma {:induction false} FieldsKept(h: CmQueue, new i: nat, new j: nat)
    requires old(HeadOk(h)) && i < |old(h.kids)| && j < |old(h.kids)|
    requires forall o :: o in old(h.Repr) && o != old(h.kids[i]) ==> unchanged(o)
    requires old(h.kids[i]).Foot == old(h.kids[i].Foot)
    ensures old(h.kids[j]).Valid() && old(h.kids[j]).Foot == old(h.kids[j].Foot)
    ensures j != i ==> old(h.kids[j]).Abs() == old(h.kids[j].Abs())
  {
    hide CmQueue.ValidHead;
    hide IsRing;
    var k, m := old(h.kids[j]), old(h.kids[i]);
    assert old(k.Valid()) && old(m.Valid());
    assert old(Feet(h.kids)[j]) == old(k.Foot) && old(Feet(h.kids)[i]) == old(m.Foot);
    assert j != i ==> old(k.Foot) !! old(m.Foot);
    NodeKept(k);
  }

  /** setToken on node i: aborts (false) if the node has a token. */
  method SetToken(h: CmQueue, ghost i: nat, m: CmMatch, t: Token) returns (ok: bool)
    requires h.ValidHead() && i < |h.kids| && m == h.kids[i]
    modifies h`trie, h`Repr, m`token
    ensures h.ValidHead() && h.Repr == old(h.Repr)
    ensures i < |old(h.trie)| && ok == (old(m.token) == None)
    ensures h.trie == if ok then old(h.trie)[i := old(m.Abs()).(token := Some(t))] else old(h.trie)
  {
    hide CmQueue.ValidHead;
    hide CmQueue.Ring;
    hide Links;
    hide IsRing;
    HeadFacts(h);
    FootFacts(h, i);
    if m.token != None {
      return false;
    }
    ghost var ring := h.Ring();
    WriteToken(h, i, m, t);
    RingKept(ring);
    UpdateHead(h, h.Repr, h.trie[i := m.Abs()]);
    ok := true;
  }

  lemma {:induction false} NodesAre(h: CmQueue)
    requires HeadOk(h)
    ensures |h.trie| == |h.kids| && forall j :: 0 <= j < |h.kids| ==> h.trie[j] == h.kids[j].Abs()
    ensures ApartSets(h, h.Repr, h.kids, Feet(h.kids))
  {
  }

  lemma {:induction false} NodesFrom(kids: seq<CmMatch>, trie: seq<Node>)
    requires |trie| == |kids| && forall j :: 0 <= j < |kids| ==> kids[j].Valid() && trie[j] == kids[j].Abs()
    ensures NodesOk(kids, trie)
  {
  }

  method WriteToken(h: CmQueue, ghost i: nat, m: CmMatch, t: Token)
    requires HeadOk(h) && h in h.Repr && i < |h.kids| && m == h.kids[i]
    modifies m`token
    ensures NodesOk(h.kids, h.trie[i := m.Abs()]) && ApartSets(h, h.Repr, h.kids, Feet(h.kids))
    ensures m.Abs() == old(m.Abs()).(token := Some(t)) && forall j :: 0 <= j < |h.kids| ==> h !in h.kids[j].org.Repr
  {
    hide CmQueue.ValidHead;
    hide IsRing;
    hide HeadOk;
    hide NodesOk;
    hide ApartSets;
    hide CmMatch.Valid;
    NodesAre(h);
    forall j | 0 <= j < |h.kids| ensures h !in h.kids[j].org.Repr {
      NodeFact(h, i, j);
    }
    ghost var kids := h.kids;
    m.token := Some(t);
    forall o | o in old(h.Repr) && o != old(h.kids[i]) ensures unchanged(o) {
      assert o != m;
    }
    forall j | 0 <= j < |kids|
      ensures kids[j].Valid() && kids[j].Foot == old(kids[j].Foot) && (j != i ==> kids[j].Abs() == old(kids[j].Abs()))
    {
      FieldsKept(h, i, j);
    }
    NodesFrom(kids, h.trie[i := m.Abs()]);
    assert Feet(kids) == old(Feet(kids));
  }

  /** No node of a ring lies below another, nor does the head. */
  lemma {:induction false} NodeFact(h: CmQueue, i: nat, j: nat)
    requires HeadOk(h) && i < |h.kids| && j < |h.kids|
    ensures h !in h.kids[j].org.Repr && h.kids[i] !in h.kids[j].org.Repr && h.kids[j].Valid()
    ensures j != i ==> h.kids[j] != h.kids[i] && h.kids[i].org !in h.kids[j].org.Repr
    ensures forall o :: j != i && o in h.kids[i].org.Repr ==>
      o !in h.kids[j].org.Repr && o != h.kids[j] && o != h.kids[j].link
  {
    hide CmQueue.ValidHead;
    hide IsRing;
    assert h.kids[j].Valid() && h.kids[i].Valid();
    if j < i {
      assert Feet(h.kids)[j] !! Feet(h.kids)[i];
    } else if i < j {
      assert Feet(h.kids)[i] !! Feet(h.kids)[j];
    }
  }

  /** newTokenString on node i: registers the rest of the string below it. */
  method NewTokenString(h: CmQueue, ghost i: nat, m: CmMatch, t: Token, rest: Str) returns (ok: bool)
    requires h.ValidHead() && i < |h.kids| && m == h.kids[i] && Proper(m.org.trie) && rest != []
    modifies h.Repr
    ensures h.ValidHead() && old(h.Repr) <= h.Repr && fresh(h.Repr - old(h.Repr))
    ensures i < |old(h.trie)| && ok == Add(old(m.org.trie), t, rest, AsWritten).Some?
    ensures h.trie == if ok
      then old(h.trie)[i := old(m.Abs()).(kids := Add(old(m.org.trie), t, rest, AsWritten).value)]
      else old(h.trie)
    decreases |rest|, 4
  {
    hide CmQueue.ValidHead;
    hide CmQueue.Ring;
    hide Links;
    hide IsRing;
    HeadFacts(h);
    FootFacts(h, i);
    hide HeadOk;
    hide CmMatch.Valid;
    hide NodesOk;
    hide CmQueue.Apart;
    hide ApartSets;
    hide Renewed;
    hide OthersOk;
    hide Add;
    ghost var trie, repr := h.trie, h.Repr;
    ok := AddBelowNode(h, i, m, t, rest);
    ghost var ring := h.Ring();
    label Added:
    GrowFoot(h, i, m);
    RingKept@Added(ring);
    UpdateHead(h, repr + m.org.Repr, trie[i := m.Abs()]);
  }

  /** A node other than i is as it was when things have changed only below node i. */
  twostate lemma {:induction false} SiblingKept(h: CmQueue, new i: nat, new j: nat)
    requires old(HeadOk(h)) && i < |old(h.kids)| && j < |old(h.kids)| && j != i
    requires forall o :: o in old(h.Repr) && o !in old(h.kids[i].org.Repr) ==> unchanged(o)
    ensures old(h.kids[j]).Valid() && old(h.kids[j]).Abs() == old(h.kids[j].Abs())
    ensures unchanged(old(h.kids[j]))
  {
    hide CmQueue.ValidHead;
    hide IsRing;
    var k := old(h.kids[j]);
    assert old(k.Valid());
    assert old(h.kids[i].Valid());
    assert old(Feet(h.kids)[j]) == old(k.Foot) && old(Feet(h.kids)[i]) == old(h.kids[i].Foot);
    assert old(k.Foot) !! old(h.kids[i].Foot);
    NodeKept(k);
  }

  lemma {:induction false} FootFacts(h: CmQueue, i: nat)
    requires HeadOk(h) && i < |h.kids|
    ensures var m := h.kids[i]; h !in m.Foot && m.Foot <= h.Repr && {m, m.link, m.org} <= m.Foot
    ensures |h.trie| == |h.kids| && h.kids[i].org in h.kids[i].org.Repr && h.kids[i].org.Repr <= h.kids[i].Foot
    ensures h.trie[i] == h.kids[i].Abs()
  {
    hide CmQueue.ValidHead;
    assert h.kids[i].Valid() && h.kids[i].Foot == Feet(h.kids)[i];
  }

  lemma {:induction false} RingApart(h: CmQueue, i: nat)
    requires HeadOk(h) && i < |h.kids| && h in h.Repr
    ensures forall q :: q in h.Ring() ==> q in h.Repr && q !in h.kids[i].org.Repr
  {
    hide CmQueue.ValidHead;
    hide IsRing;
  }

  twostate lemma {:induction false} PartsKept(h: CmQueue, new i: nat, new m: CmMatch)
    requires old(HeadOk(h)) && h in old(h.Repr) && i < |old(h.kids)| && m == old(h.kids[i])
    requires forall o :: o in old(h.Repr) && o !in old(m.org.Repr) ==> unchanged(o)
    ensures unchanged(h, m, m.link)
    ensures {m, m.link, m.org} <= m.Foot && m.link.owner == m
    ensures {h, m, m.link} !! old(m.org.Repr) && old(m.org.Repr) <= m.Foot <= h.Repr
  {
    hide CmQueue.ValidHead;
    hide IsRing;
    assert old(m.Valid()) && old(Feet(h.kids)[i]) == old(m.Foot);
    assert h == old(h.Ring()[0]);
    assert h !in old(m.org.Repr);
  }

  twostate lemma {:induction false} RingRestKept(h: CmQueue, new changed: set<object>)
    requires old(IsRing(h.Ring())) && h.Ring() == old(h.Ring())
    requires forall o :: o in old(h.Repr) && o !in changed ==> unchanged(o)
    requires forall q :: q in old(h.Ring()) ==> q in old(h.Repr) && q !in changed
    ensures IsRing(h.Ring())
  {
    hide IsRing;
    RingKept(old(h.Ring()));
  }

  twostate lemma {:induction false} OthersKept(h: CmQueue, new i: nat, new m: CmMatch)
    requires old(HeadOk(h)) && i < |old(h.kids)| && m == old(h.kids[i])
    requires forall o :: o in old(h.Repr) && o !in old(m.org.Repr) ==> unchanged(o)
    requires unchanged(h) && unchanged(m)
    ensures OthersOk(h.kids, h.trie, i) && h.Apart()
  {
    hide CmQueue.ValidHead;
    hide CmMatch.Valid;
    hide IsRing;
    forall j | 0 <= j < |h.kids| && j != i
      ensures h.kids[j].Valid() && h.kids[j].Abs() == old(h.kids[j].Abs()) && unchanged(h.kids[j])
    {
      SiblingKept(h, i, j);
    }
    assert Feet(h.kids) == old(Feet(h.kids));
  }

  twostate lemma {:induction false} RestKept(h: CmQueue, new i: nat, new m: CmMatch)
    requires old(HeadOk(h)) && h in old(h.Repr) && old(IsRing(h.Ring())) && i < |old(h.kids)| && m == old(h.kids[i])
    requires forall q :: q in old(h.Ring()) ==> q in old(h.Repr) && q !in old(m.org.Repr)
    requires forall o :: o in old(h.Repr) && o !in old(m.org.Repr) ==> unchanged(o)
    ensures unchanged(h, m, m.link)
    ensures {m, m.link, m.org} <= m.Foot && m.link.owner == m
    ensures {h, m, m.link} !! old(m.org.Repr) && old(m.org.Repr) <= m.Foot <= h.Repr
    ensures OthersOk(h.kids, h.trie, i) && h.Apart() && IsRing(h.Ring())
  {
    hide CmQueue.ValidHead;
    hide IsRing;
    hide HeadOk;
    hide NodesOk;
    hide CmQueue.Apart;
    hide OthersOk;
    hide CmMatch.Valid;
    PartsKept(h, i, m);
    OthersKept(h, i, m);
    RingRestKept(h, old(m.org.Repr));
  }

  method AddBelowNode(h: CmQueue, ghost i: nat, m: CmMatch, t: Token, rest: Str) returns (ok: bool)
    requires HeadOk(h) && h in h.Repr && IsRing(h.Ring()) && i < |h.kids| && m == h.kids[i]
    requires Proper(m.org.trie) && rest != []
    modifies m.org.Repr
    ensures Renewed(h, m) && OthersOk(h.kids, h.trie, i) && h.Apart() && IsRing(h.Ring())
    ensures unchanged(h) && m.Abs().(kids := []) == old(m.Abs()).(kids := [])
    ensures fresh(m.org.Repr - old(m.org.Repr)) && old(m.org.Repr) <= m.org.Repr
    ensures ok == Add(old(m.org.trie), t, rest, AsWritten).Some?
    ensures m.org.trie == if ok then Add(old(m.org.trie), t, rest, AsWritten).value else old(m.org.trie)
    decreases |rest|, 3
  {
    hide CmQueue.ValidHead;
    hide CmQueue.Ring;
    hide Links;
    hide IsRing;
    NodeFact(h, i, i);
    FootFacts(h, i);
    RingApart(h, i);
    ghost var below := m.org.Repr;
    hide HeadOk;
    hide NodesOk;
    hide CmQueue.Apart;
    hide Add;
    ok := AddTokenString(m.org, t, rest);
    hide OthersOk;
    RestKept(h, i, m);
    hide CmMatch.Valid;
    assert m.org in m.org.Repr by { HeadFacts(m.org); }
  }

  method NewNode(token: Option<Token>, str: Str) returns (lm: CmMatch)
    ensures lm.Valid() && fresh(lm.Foot) && fresh(lm) && fresh(lm.link) && lm.org in lm.Foot
    ensures lm.Abs() == Node(str, token, []) && lm.org.kids == []
  {
    hide CmQueue.ValidHead;
    lm := new CmMatch(token, str);
  }

  lemma {:induction false} AddsNode(ring: seq<Node>, t: Token, ts: Str, i: nat)
    requires Proper(ring) && (ts != [] || ring != []) && i == GreaterEqualInitial(ring, Initial(ts))
    requires i < |ring| ==> Initial(ring[i].str) != Initial(ts)
    ensures Add(ring, t, ts, AsWritten) == Some(Inserted(ring, i, Node(ts, Some(t), [])))
  {
  }

  /** The end of matchTokenString: the token goes to node n itself or, with the rest of its string,
      below n. None: setToken aborts. */
  ghost function Finished(n: Node, t: Token, rest: Str): Option<Node>
    requires Proper(n.kids)
  {
    if rest == [] then if n.token.Some? then None else Some(n.(token := Some(t)))
    else
      match Add(n.kids, t, rest, AsWritten)
      case None => None
      case Some(kids) => Some(n.(kids := kids))
  }

  lemma {:induction false} AddsToNode(ring: seq<Node>, t: Token, ts: Str, i: nat)
    requires Proper(ring) && i == GreaterEqualInitial(ring, Initial(ts)) < |ring|
    requires Initial(ring[i].str) == Initial(ts) && Common(ring[i].str, ts) == |ring[i].str|
    ensures |ring[i].str| <= |ts| && (ts != [] ==> ring[i].str != [])
    ensures var n' := Finished(ring[i], t, ts[|ring[i].str|..]);
      Add(ring, t, ts, AsWritten) == if n'.Some? then Some(ring[i := n'.value]) else None
  {
  }

  /** What split makes of node n. */
  function Cut(n: Node, l: nat): Node
    requires l <= |n.str|
  {
    Node(n.str[..l], None, [n.(str := n.str[l..])])
  }

  lemma {:induction false} AddsToSplit(ring: seq<Node>, t: Token, ts: Str, i: nat, l: nat)
    requires Proper(ring) && i == GreaterEqualInitial(ring, Initial(ts)) < |ring|
    requires Initial(ring[i].str) == Initial(ts) && Common(ring[i].str, ts) == l < |ring[i].str|
    ensures 0 < l <= |ts| && Proper(Cut(ring[i], l).kids)
    ensures var n' := Finished(Cut(ring[i], l), t, ts[l..]);
      n'.Some? && Add(ring, t, ts, AsWritten) == Some(Relinked(ring, i, n'.value, AsWritten))
  {
    hide Relinked;
    assert l > 0;
    assert ring[i].str[..l] == ts[..l];
    if l == |ts| {
      assert ring[i].str[..l] == ts;
    }
  }

  /** The index at which the split node is linked. */
  function SplitIndex(n: nat, i: nat): nat
    requires i < n
  {
    if i == 0 then n - 1 else i - 1
  }

  lemma {:induction false} RelinkedIsInserted(ring: seq<Node>, i: nat, top: Node, top': Node)
    requires i < |ring|
    ensures Inserted(Without(ring, i), SplitIndex(|ring|, i), top) == Relinked(ring, i, top, AsWritten)
    ensures Relinked(ring, i, top, AsWritten)[SplitIndex(|ring|, i) := top'] == Relinked(ring, i, top', AsWritten)
    ensures Relinked(ring, i, top, AsWritten)[SplitIndex(|ring|, i)] == top
  {
  }

  method AddTokenString(h: CmQueue, t: Token, ts: Str) returns (ok: bool)
    requires h.ValidHead() && Proper(h.trie) && (ts != [] || h.trie != [])
    modifies h.Repr
    ensures h.ValidHead() && old(h.Repr) <= h.Repr && fresh(h.Repr - old(h.Repr))
    ensures ok == Add(old(h.trie), t, ts, AsWritten).Some?
    ensures h.trie == if ok then Add(old(h.trie), t, ts, AsWritten).value else old(h.trie)
    decreases |ts|, 2
  {
    hide CmQueue.ValidHead;
    assert h in h.Repr by { HeadFacts(h); }
    hide CmMatch.Valid;
    hide Add;
    var q, i := GreaterEqualInitialOf(h, Initial(ts));
    if q == h || Initial(q.owner.str) != Initial(ts) {
      var lm := NewNode(Some(t), ts);
      InsertNode(h, q, i, lm);
      AddsNode(old(h.trie), t, ts, i);
      ok := true;
    } else {
      ok := MatchTokenString(h, i, q.owner, t, ts);
    }
  }

  method InsertFirst(h: CmQueue, m: CmMatch)
    requires h.ValidHead() && h.kids == [] && h.trie == [] && m.Valid() && m.Foot !! h.Repr
    modifies h, h.Repr, m.link`prev, m.link`next
    ensures h.ValidHead() && h.Repr == old(h.Repr) + old(m.Foot) && h.trie == [old(m.Abs())]
  {
    hide CmQueue.ValidHead;
    hide CmMatch.Valid;
    InsertNode(h, h, 0, m);
  }

  /** ulm->org().insert(this): node m becomes the only child of node j. */
  method InsertBelowNode(h: CmQueue, ghost j: nat, ulm: CmMatch, m: CmMatch)
    requires HeadOk(h) && h in h.Repr && IsRing(h.Ring()) && j < |h.kids| && ulm == h.kids[j]
    requires ulm.org.kids == [] && ulm.org.trie == [] && m.Valid() && m.Foot !! h.Repr
    modifies ulm.org, ulm.org.Repr, m.link`prev, m.link`next
    ensures Renewed(h, ulm) && OthersOk(h.kids, h.trie, j) && h.Apart() && IsRing(h.Ring())
    ensures unchanged(h) && ulm.Abs().(kids := []) == old(ulm.Abs()).(kids := [])
    ensures ulm.org.Repr == old(ulm.org.Repr) + old(m.Foot) && ulm.org.trie == [old(m.Abs())]
  {
    hide CmQueue.ValidHead;
    hide CmQueue.Ring;
    hide Links;
    hide IsRing;
    hide HeadOk;
    hide NodesOk;
    hide CmQueue.Apart;
    hide OthersOk;
    NodeFact(h, j, j);
    FootFacts(h, j);
    RingApart(h, j);
    ghost var below := ulm.org.Repr;
    assert below <= ulm.Foot && ulm.org.ValidHead() && m.link in m.Foot;
    hide CmMatch.Valid;
    InsertFirst(ulm.org, m);
    forall o | o in old(h.Repr) && o !in below ensures unchanged(o) {
      assert o != m.link && o != ulm.org;
    }
    RestKept(h, j, ulm);
  }

  /** The same, with everything the nodes and the head record about it. */
  method PutBelow(h: CmQueue, ghost j: nat, ulm: CmMatch, m: CmMatch)
    requires h.ValidHead() && j < |h.kids| && ulm == h.kids[j]
    requires ulm.org.kids == [] && ulm.org.trie == [] && m.Valid() && m.Foot !! h.Repr
    modifies h.Repr, m.link`prev, m.link`next
    ensures h.ValidHead() && h.Repr == old(h.Repr) + old(m.Foot)
    ensures j < |old(h.trie)| && h.trie == old(h.trie)[j := ulm.Abs()] && h.kids == old(h.kids)
    ensures ulm.Abs() == old(ulm.Abs()).(kids := [old(m.Abs())])
  {
    hide CmQueue.ValidHead;
    hide CmQueue.Ring;
    hide Links;
    hide IsRing;
    HeadFacts(h);
    FootFacts(h, j);
    hide HeadOk;
    hide CmMatch.Valid;
    hide NodesOk;
    hide CmQueue.Apart;
    hide ApartSets;
    hide Renewed;
    hide OthersOk;
    ghost var trie, repr := h.trie, h.Repr;
    InsertBelowNode(h, j, ulm, m);
    ghost var ring := h.Ring();
    label Inserted:
    GrowFoot(h, j, ulm);
    RingKept@Inserted(ring);
    UpdateHead(h, repr + ulm.org.Repr, trie[j := ulm.Abs()]);
  }

  method Shorten(m: CmMatch, l: nat)
    requires m.Valid() && l <= |m.str|
    modifies m`str
    ensures m.Valid() && m.Abs() == old(m.Abs()).(str := old(m.str)[l..]) && m.Foot == old(m.Foot)
  {
    hide CmQueue.ValidHead;
    m.str := m.str[l..];
    NodeKept(m);
  }

  /** The first half of split: m leaves its ring, and p is its old predecessor. */
  method TakeOut(h: CmQueue, ghost i: nat, m: CmMatch) returns (p: CmQueue, ghost j: nat)
    requires h.ValidHead() && i < |h.kids| && m == h.kids[i]
    modifies h.Repr
    ensures h.ValidHead() && h in h.Repr && h.Repr == old(h.Repr - m.Foot)
    ensures m.Foot == old(m.Foot) <= old(h.Repr) && {m, m.link, m.org} <= m.Foot
    ensures m.Valid() && m.Abs() == old(m.Abs())
    ensures i < |old(h.trie)| && h.trie == Without(old(h.trie), i)
    ensures j == SplitIndex(|old(h.trie)|, i) <= |h.kids| == |h.trie| && p == h.NodeOrHead(j)
  {
    hide CmQueue.ValidHead;
    hide IsRing;
    HeadFacts(h);
    RingStep(h, i);
    FootFacts(h, i);
    hide CmQueue.Apart;
    hide CmMatch.Valid;
    hide HeadOk;
    hide NodesOk;
    p := m.link.prev;
    j := SplitIndex(|h.trie|, i);
    ghost var kids := h.kids;
    assert p == h.NodeOrHead(i - 1);
    RemoveNode(h, m, i);
    if i > 0 {
      assert h.kids[j] == kids[i - 1];
    }
  }

  /** The second half: a new node takes m as its child and is linked in front of p. */
  method PutOnTop(h: CmQueue, p: CmQueue, ghost j: nat, m: CmMatch, l: nat) returns (ulm: CmMatch)
    requires h.ValidHead() && h in h.Repr && j <= |h.kids| == |h.trie| && p == h.NodeOrHead(j)
    requires m.Valid() && m.Foot !! h.Repr && {m, m.link, m.org} <= m.Foot && l <= |m.str|
    modifies h.Repr, m`str, m.link`prev, m.link`next
    ensures h.ValidHead() && old(h.Repr + m.Foot) <= h.Repr && fresh(h.Repr - old(h.Repr + m.Foot))
    ensures j < |h.kids| && ulm == h.kids[j] && fresh(ulm)
    ensures ulm.Abs() == Cut(old(m.Abs()), l) && h.trie == Inserted(old(h.trie), j, ulm.Abs())
  {
    hide CmQueue.ValidHead;
    hide CmMatch.Valid;
    hide CmQueue.Apart;
    ulm := NewNode(None, m.str[..l]);
    Shorten(m, l);
    InsertNode(h, p, j, ulm);
    assert m.Abs() == old(m.Abs()).(str := old(m.str)[l..]);
    PutBelow(h, j, ulm, m);
    assert Inserted(old(h.trie), j, Node(old(m.str)[..l], None, []))[j := ulm.Abs()]
      == Inserted(old(h.trie), j, ulm.Abs());
  }

  /** split: m gives the first l characters of its string to a new node that takes m as its child and
      is linked in front of m's old predecessor. */
  method Split(h: CmQueue, ghost i: nat, m: CmMatch, l: nat) returns (ulm: CmMatch, ghost j: nat)
    requires h.ValidHead() && i < |h.kids| && m == h.kids[i] && 0 < l < |m.str|
    modifies h.Repr
    ensures h.ValidHead() && old(h.Repr) <= h.Repr && fresh(h.Repr - old(h.Repr))
    ensures j < |h.kids| && ulm == h.kids[j] && fresh(ulm)
    ensures i < |old(h.trie)| && ulm.Abs() == Cut(old(m.Abs()), l)
    ensures h.trie == Relinked(old(h.trie), i, ulm.Abs(), AsWritten)
    ensures j == SplitIndex(|old(h.trie)|, i)
  {
    hide CmQueue.ValidHead;
    hide CmMatch.Valid;
    assert h in h.Repr by { HeadFacts(h); }
    var p;
    p, j := TakeOut(h, i, m);
    ulm := PutOnTop(h, p, j, m, l);
    RelinkedIsInserted(old(h.trie), i, ulm.Abs(), ulm.Abs());
  }

  method Finish(h: CmQueue, ghost i: nat, m: CmMatch, t: Token, rest: Str) returns (ok: bool)
    requires h.ValidHead() && i < |h.kids| && m == h.kids[i] && Proper(m.org.trie)
    modifies h.Repr
    ensures h.ValidHead() && old(h.Repr) <= h.Repr && fresh(h.Repr - old(h.Repr))
    ensures i < |old(h.trie)| && ok == Finished(old(m.Abs()), t, rest).Some?
    ensures h.trie == if ok then old(h.trie)[i := Finished(old(m.Abs()), t, rest).value] else old(h.trie)
    decreases |rest|, if rest == [] then 0 else 5
  {
    hide CmQueue.ValidHead;
    hide CmMatch.Valid;
    hide Add;
    assert h in h.Repr && m in h.Repr by { HeadFacts(h); }
    if rest == [] {
      ok := SetToken(h, i, m, t);
    } else {
      ok := NewTokenString(h, i, m, t, rest);
    }
  }

  method MatchTokenString(h: CmQueue, ghost i: nat, m: CmMatch, t: Token, ts: Str) returns (ok: bool)
    requires Proper(h.trie) && i == GreaterEqualInitial(h.trie, Initial(ts)) < |h.trie|
    requires Initial(h.trie[i].str) == Initial(ts) && h.trie[i] == m.Abs()
    requires i < |h.kids| && m == h.kids[i] && h.ValidHead()
    modifies h.Repr
    ensures ok == Add(old(h.trie), t, ts, AsWritten).Some?
    ensures h.trie == if ok then Add(old(h.trie), t, ts, AsWritten).value else old(h.trie)
    ensures h.ValidHead() && old(h.Repr) <= h.Repr && fresh(h.Repr - old(h.Repr))
    decreases |ts|, 1
  {
    hide CmQueue.ValidHead;
    hide CmMatch.Valid;
    hide Add;
    hide Common;
    hide GreaterEqualInitial;
    hide Finished;
    var l := CommonPrefix(m.str, ts);
    if l == |m.str| {
      AddsToNode(h.trie, t, ts, i);
      ok := Finish(h, i, m, t, ts[l..]);
    } else {
      ok := SplitAndFinish(h, i, m, t, ts, l);
    }
  }

  method SplitAndFinish(h: CmQueue, ghost i: nat, m: CmMatch, t: Token, ts: Str, l: nat) returns (ok: bool)
    requires Proper(h.trie) && i == GreaterEqualInitial(h.trie, Initial(ts)) < |h.trie|
    requires Initial(h.trie[i].str) == Initial(ts) && h.trie[i] == m.Abs() && l == Common(m.str, ts) < |m.str|
    requires i < |h.kids| && m == h.kids[i] && h.ValidHead()
    modifies h.Repr
    ensures ok && Some(h.trie) == Add(old(h.trie), t, ts, AsWritten)
    ensures h.ValidHead() && old(h.Repr) <= h.Repr && fresh(h.Repr - old(h.Repr))
    decreases |ts|, 0
  {
    hide CmQueue.ValidHead;
    hide CmMatch.Valid;
    hide Add;
    hide Common;
    hide GreaterEqualInitial;
    hide Finished;
    ghost var trie, n := h.trie, m.Abs();
    AddsToSplit(trie, t, ts, i, l);
    var ulm, j := Split(h, i, m, l);
    ok := Finish(h, j, ulm, t, ts[l..]);
    RelinkedIsInserted(trie, i, Cut(n, l), Finished(Cut(n, l), t, ts[l..]).value);
  }

  // ---------- the public interface ----------

  /** A run of addToken; it stops (false) where setToken aborts. */
  method AddTokens(h: CmQueue, ts: seq<Token>) returns (ok: bool)
    requires Proper(h.trie) && Startable(h.trie, ts)
    requires h.ValidHead()
    modifies h.Repr
    ensures ok == AddAll(old(h.trie), ts, AsWritten).Some?
    ensures ok ==> h.trie == AddAll(old(h.trie), ts, AsWritten).value
    ensures h.ValidHead() && old(h.Repr) <= h.Repr && fresh(h.Repr - old(h.Repr))
  {
    hide CmQueue.ValidHead;
    hide Add;
    ghost var trie := h.trie;
    var i := 0;
    ok := true;
    assert ts[0..] == ts;
    while i < |ts|
      invariant 0 <= i <= |ts| && Proper(h.trie) && Startable(h.trie, ts[i..])
      invariant AddAll(trie, ts, AsWritten) == AddAll(h.trie, ts[i..], AsWritten)
      invariant h.ValidHead() && old(h.Repr) <= h.Repr && fresh(h.Repr - old(h.Repr))
    {
      assert ts[i..][0] == ts[i] && ts[i..][1..] == ts[i + 1..];
      ok := AddTokenString(h, ts[i], ts[i].str);
      if !ok {
        return;
      }
      i := i + 1;
    }
  }

  /** lex: the token found and how far the input pointer moves. */
  method LexOf(h: CmQueue, s: Str) returns (t: Option<Token>, advance: nat)
    requires h.ValidHead() && Proper(h.trie)
    ensures (t, advance) == Lex(h.trie, s)
  {
    hide CmQueue.ValidHead;
    t := FindTokenOf(h, s);
    advance := if t.Some? then |t.value.str| else 0;
  }

  /** deque undoes enque, and no other ring notices either. */
  method EnqueThenDeque(p: CmQueue, q: CmQueue, ghost s: seq<CmQueue>, ghost k: nat, ghost other: seq<CmQueue>)
    requires IsRing(s) && k < |s| && s[k] == p && q !in s
    requires IsRing(other) && q !in other && forall o :: o in other ==> o !in s
    modifies s`prev, s`next, q`prev, q`next
    ensures IsRing(s) && IsRing([q]) && IsRing(other)
  {
    hide IsRing;
    EnqueIn(p, q, s, k);
    UndoesSplice(s, k, q);
    hide Spliced;
    DequeFrom(q, Spliced(s, k + 1, q), k + 1);
    forall o | o in other ensures o.prev == old(o.prev) && o.next == old(o.next) {
      assert o !in s && o != q;
    }
    RingKept(other);
  }

  method EnqueIn(p: CmQueue, q: CmQueue, ghost s: seq<CmQueue>, ghost k: nat)
    requires IsRing(s) && k < |s| && s[k] == p && q !in s
    modifies s`prev, s`next, q`prev, q`next
    ensures IsRing(Spliced(s, k + 1, q))
  {
    PrevInRing(s, k);
    p.Enque(q, s, k);
  }

  lemma {:induction false} UndoesSplice(s: seq<CmQueue>, k: nat, q: CmQueue)
    requires k < |s|
    ensures var t := Spliced(s, k + 1, q);
      && k + 1 < |t| && |t| > 1 && t[k + 1] == q && t[..k + 1] + t[k + 2..] == s
      && forall o :: o in t ==> o in s || o == q
  {
  }
}
