/** The lookup of CmMatch.cc:87-150, exactly as the code performs it, against the reference lookup. */
module TrieLookup {
  import opened Wrappers
  import opened TrieModel

  /** findMatchString. Line 117 already finds the deepest node below this one; line 118 then looks
      the same text up again, starting at that node. */
  ghost function FindMatchString(n: Node, ts: Str): (r: Option<Hit>)
    requires Fine(n)
    ensures r.Some? <==> n.str <= ts
    ensures r.Some? ==> Fine(r.value.node)
    decreases |ts|, if n.str == [] then 1 else 2
  {
    if !(n.str <= ts) then None
    else
      var rest := ts[|n.str|..];
      match FindString(n.kids, rest)
      case None => Some(Hit([], n))
      case Some(child) =>
        match FindMatchString(child.node, rest)
        case None => Some(Hit([], n))
        case Some(lm) => Some(Hit(child.at + lm.at, lm.node))
  }

  ghost function FindString(ring: seq<Node>, ts: Str): (r: Option<Hit>)
    requires Proper(ring)
    ensures r.Some? ==> r.value.at != [] && Fine(r.value.node)
    decreases |ts|, if ring == [] then 0 else 3
  {
    var i := EqualInitial(ring, ts);
    if i == |ring| then None
    else
      match FindMatchString(ring[i], ts)
      case None => None
      case Some(lm) => Some(Hit([i] + lm.at, lm.node))
  }

  ghost function FindToken(ring: seq<Node>, s: Str): Option<Token>
    requires Proper(ring)
  {
    match FindString(ring, s)
    case None => None
    case Some(lm) => lm.node.token
  }

  /** The repeated lookup of line 118 finds the node again where it should not: the label of a node
      below c begins the text at which c itself was matched. */
  predicate Overlap(c: Node, g: Node) {
    g.str <= c.str + g.str
  }

  /** On the way that `rest` takes below n, no node overlaps with its parent. */
  ghost predicate PlainBelow(n: Node, rest: Str)
    requires Proper(n.kids)
    decreases n
  {
    var i := EqualInitial(n.kids, rest);
    i < |n.kids| && n.kids[i].str <= rest ==>
      !Overlap(n, n.kids[i]) && PlainBelow(n.kids[i], rest[|n.kids[i].str|..])
  }

  /** The same from the second node on, counting the one that matches in `ring` as the second. */
  ghost predicate PlainRing(ring: seq<Node>, ts: Str)
    requires Proper(ring)
  {
    var i := EqualInitial(ring, ts);
    i < |ring| && ring[i].str <= ts ==> PlainBelow(ring[i], ts[|ring[i].str|..])
  }

  /** The same for a whole lookup, whose first node has no part in it. */
  ghost predicate Plain(ring: seq<Node>, ts: Str)
    requires Proper(ring)
  {
    var i := EqualInitial(ring, ts);
    i < |ring| && ring[i].str <= ts ==> PlainRing(ring[i].kids, ts[|ring[i].str|..])
  }

  /** One level of findMatchString over a child that matches. When the second lookup fails, so does
      everything the first one found. */
  lemma {:induction false} StepsBack(n: Node, ts: Str, i: nat, m: Hit)
    requires Fine(n) && n.str <= ts
    requires i == EqualInitial(n.kids, ts[|n.str|..]) < |n.kids|
    requires FindMatchString(n.kids[i], ts[|n.str|..]) == Some(m)
    requires !(m.node.str <= ts[|n.str|..])
    ensures FindMatchString(n, ts) == Some(Hit([], n))
  {
    assert FindString(n.kids, ts[|n.str|..]) == Some(Hit([i] + m.at, m.node));
  }

  lemma {:induction false} StepsOn(n: Node, ts: Str, i: nat)
    requires Fine(n) && n.str <= ts
    requires i == EqualInitial(n.kids, ts[|n.str|..]) < |n.kids|
    requires FindMatchString(n.kids[i], ts[|n.str|..]) == Some(Hit([], n.kids[i]))
    ensures FindMatchString(n, ts) == Some(Hit([i], n.kids[i]))
  {
    assert [i] + [] == [i];
    assert FindString(n.kids, ts[|n.str|..]) == Some(Hit([i], n.kids[i]));
  }

  lemma {:induction false} OverlapIsPrefix(c: Node, g: Node, rest: Str)
    requires c.str <= rest && g.str <= rest[|c.str|..]
    ensures g.str <= rest <==> Overlap(c, g)
  {
    assert rest[..|c.str| + |g.str|] == c.str + g.str;
    assert rest[..|g.str|] == (c.str + g.str)[..|g.str|];
  }

  /** The number of nodes on the way to the deepest match. */
  ghost function Depth(ring: seq<Node>, ts: Str): nat
    requires Proper(ring)
  {
    match Deepest(ring, ts)
    case None => 0
    case Some(h) => |h.at|
  }

  lemma {:induction false} DepthUnfolds(ring: seq<Node>, ts: Str)
    requires Proper(ring)
    ensures var i := EqualInitial(ring, ts);
      if i < |ring| && ring[i].str <= ts
      then Depth(ring, ts) == 1 + Depth(ring[i].kids, ts[|ring[i].str|..]) && Deepest(ring, ts).value.at[0] == i
      else Depth(ring, ts) == 0
  {
  }

  lemma {:induction false} PlainUnfolds(ring: seq<Node>, ts: Str)
    requires Proper(ring) && PlainRing(ring, ts)
    ensures var i := EqualInitial(ring, ts);
      i < |ring| && ring[i].str <= ts ==>
        var c, rest := ring[i], ts[|ring[i].str|..];
        var j := EqualInitial(c.kids, rest);
        && PlainRing(c.kids, rest)
        && (j < |c.kids| && c.kids[j].str <= rest ==> !(c.kids[j].str <= ts))
  {
    var i := EqualInitial(ring, ts);
    if i < |ring| && ring[i].str <= ts {
      var c, rest := ring[i], ts[|ring[i].str|..];
      var j := EqualInitial(c.kids, rest);
      if j < |c.kids| && c.kids[j].str <= rest {
        OverlapIsPrefix(c, c.kids[j], ts);
      }
    }
  }

  predicate Odd(n: nat) {
    n != 0 && !Odd(n - 1)
  }

  lemma {:induction false} MatchByParity(n: Node, ts: Str)
    requires Fine(n) && n.str <= ts && PlainRing(n.kids, ts[|n.str|..])
    ensures FindMatchString(n, ts) ==
      var i := EqualInitial(n.kids, ts[|n.str|..]);
      Some(if Odd(Depth(n.kids, ts[|n.str|..])) then Hit([i], n.kids[i]) else Hit([], n))
    decreases |ts|
  {
    var rest := ts[|n.str|..];
    var i := EqualInitial(n.kids, rest);
    DepthUnfolds(n.kids, rest);
    if i == |n.kids| || !(n.kids[i].str <= rest) {
      assert FindString(n.kids, rest).None?;
    } else {
      var c := n.kids[i];
      PlainUnfolds(n.kids, rest);
      DepthUnfolds(c.kids, rest[|c.str|..]);
      MatchByParity(c, rest);
      if Odd(Depth(c.kids, rest[|c.str|..])) {
        var j := EqualInitial(c.kids, rest[|c.str|..]);
        StepsBack(n, ts, i, Hit([j], c.kids[j]));
      } else {
        StepsOn(n, ts, i);
      }
    }
  }

  /** What the lookup returns: on a way of K nodes, all overlap-free, the first node of it when K is
      odd and the second one when K is even. */
  lemma {:induction false} LookupByParity(ring: seq<Node>, ts: Str)
    requires Proper(ring) && Plain(ring, ts)
    ensures var d, f := Deepest(ring, ts), FindString(ring, ts);
      && (d.None? <==> f.None?)
      && (d.Some? ==> f.value.at == d.value.at[..if Odd(|d.value.at|) then 1 else 2])
  {
    var i := EqualInitial(ring, ts);
    if i < |ring| && ring[i].str <= ts {
      MatchByParity(ring[i], ts);
      match Deepest(ring[i].kids, ts[|ring[i].str|..])
      case None =>
      case Some(d) =>
        assert [i] + [d.at[0]] == ([i] + d.at)[..2];
    }
  }

  /** The lookup is right on every way of at most two nodes, overlap-free or not. */
  lemma {:induction false} ShortWaysAreFound(ring: seq<Node>, ts: Str)
    requires Proper(ring)
    requires Deepest(ring, ts).Some? ==> |Deepest(ring, ts).value.at| <= 2
    ensures FindString(ring, ts) == Deepest(ring, ts)
  {
    var i := EqualInitial(ring, ts);
    if i < |ring| && ring[i].str <= ts {
      var kids, rest := ring[i].kids, ts[|ring[i].str|..];
      match Deepest(kids, rest)
      case None =>
        assert FindString(kids, rest).None? && [i] + [] == [i];
      case Some(d) =>
        assert |d.at| == 1;
        var j := EqualInitial(kids, rest);
        assert Deepest(kids[j].kids, rest[|kids[j].str|..]).None?;
        MatchByParity(ring[i], ts);
        assert d.at == [j];
    }
  }

  /** Without overlaps, the lookup finds the deepest match exactly when no more than two nodes lie on
      the way to it. */
  lemma {:induction false} LookupIsExactIff(ring: seq<Node>, ts: Str)
    requires Proper(ring) && Plain(ring, ts)
    ensures FindString(ring, ts) == Deepest(ring, ts) <==>
      (Deepest(ring, ts).Some? ==> |Deepest(ring, ts).value.at| <= 2)
  {
    LookupByParity(ring, ts);
    if Deepest(ring, ts).Some? ==> |Deepest(ring, ts).value.at| <= 2 {
      ShortWaysAreFound(ring, ts);
    }
  }

  lemma {:induction false} PlainIsSound(ring: seq<Node>, ts: Str) returns (w: Str)
    requires Proper(ring) && Plain(ring, ts) && FindString(ring, ts).Some?
    ensures w <= ts && Reaches(ring, FindString(ring, ts).value.at, w, FindString(ring, ts).value.node)
  {
    var i := EqualInitial(ring, ts);
    MatchByParity(ring[i], ts);
    assert [i] + [] == [i];
    var n, rest := ring[i], ts[|ring[i].str|..];
    assert ts == n.str + rest;
    var d := Deepest(n.kids, rest);
    if d.Some? && Odd(|d.value.at|) {
      var c := n.kids[d.value.at[0]];
      w := n.str + c.str;
      assert w[|n.str|..] == c.str && w <= ts;
    } else {
      w := n.str;
    }
  }

  // ---------- ways of three nodes ----------

  /** A way of three nodes a, b, c: the repeated lookup looks for c where b was matched. */
  lemma {:induction false} ThreeNodeWay(a: Node, ts: Str, j: nat, k: nat)
    requires Fine(a) && a.str <= ts
    requires var rest := ts[|a.str|..];
      && j == EqualInitial(a.kids, rest) < |a.kids| && a.kids[j].str <= rest
      && var b, rest' := a.kids[j], rest[|a.kids[j].str|..];
         && k == EqualInitial(b.kids, rest') < |b.kids| && b.kids[k].str <= rest'
         && Depth(b.kids[k].kids, rest'[|b.kids[k].str|..]) == 0
    ensures var b, c := a.kids[j], a.kids[j].kids[k];
      if Overlap(b, c)
      then var again := FindMatchString(c, ts[|a.str|..]).value;
        FindMatchString(a, ts) == Some(Hit([j, k] + again.at, again.node))
      else FindMatchString(a, ts) == Some(Hit([], a))
  {
    var rest := ts[|a.str|..];
    var b, c := a.kids[j], a.kids[j].kids[k];
    var rest' := rest[|b.str|..];
    assert NonEmpty(b.kids) && Fine(c);
    assert forall i :: 0 <= i < |c.kids| ==> NonEmpty(c.kids[i].kids);
    DepthUnfolds(c.kids, rest'[|c.str|..]);
    assert FindString(c.kids, rest'[|c.str|..]).None?;
    StepsOn(b, rest, k);
    OverlapIsPrefix(b, c, rest);
    if Overlap(b, c) {
      assert [j] + [k] == [j, k];
      assert FindString(a.kids, rest) == Some(Hit([j, k], c));
    } else {
      StepsBack(a, ts, j, Hit([k], c));
    }
  }

  /** Looking the third node c of a way up again, in the text behind the first node, stops at c. */
  ghost predicate StaysAt(c: Node, rest: Str)
    requires Fine(c)
  {
    FindMatchString(c, rest) == Some(Hit([], c))
  }

  /** ... which it does where c matches, unless a node found below c matches where c's kids are looked up. */
  lemma {:induction false} StaysIff(c: Node, rest: Str)
    requires Fine(c) && c.str <= rest
    ensures var f := FindString(c.kids, rest[|c.str|..]);
      StaysAt(c, rest) <==> f.None? || !(f.value.node.str <= rest[|c.str|..])
  {
    var rest' := rest[|c.str|..];
    var f := FindString(c.kids, rest');
    if f.Some? && f.value.node.str <= rest' {
      var lm := FindMatchString(f.value.node, rest').value;
      assert (f.value.at + lm.at)[0] == f.value.at[0];
    }
  }

  /** The nodes of a way of three. */
  ghost function Way(ring: seq<Node>, ts: Str): (w: (Node, Node, Node))
    requires Proper(ring) && Depth(ring, ts) == 3
    ensures w.0.str <= ts && Fine(w.2) && Deepest(ring, ts).value.node == w.2
    ensures var at := Deepest(ring, ts).value.at;
      && at[0] < |ring| && at[1] < |ring[at[0]].kids| && at[2] < |ring[at[0]].kids[at[1]].kids|
      && w == (ring[at[0]], ring[at[0]].kids[at[1]], ring[at[0]].kids[at[1]].kids[at[2]])
  {
    DepthUnfolds(ring, ts);
    var a, rest := ring[EqualInitial(ring, ts)], ts[|ring[EqualInitial(ring, ts)].str|..];
    DepthUnfolds(a.kids, rest);
    var b := a.kids[EqualInitial(a.kids, rest)];
    DepthUnfolds(b.kids, rest[|b.str|..]);
    (a, b, b.kids[EqualInitial(b.kids, rest[|b.str|..])])
  }

  /** What the lookup returns on a way of three nodes. */
  lemma {:induction false} ThreeNodeLookup(ring: seq<Node>, ts: Str)
    requires Proper(ring) && Depth(ring, ts) == 3
    ensures var (a, b, c) := Way(ring, ts);
      var at := Deepest(ring, ts).value.at;
      if Overlap(b, c)
      then c.str <= ts[|a.str|..] && var again := FindMatchString(c, ts[|a.str|..]).value;
        FindString(ring, ts) == Some(Hit(at + again.at, again.node))
      else FindString(ring, ts) == Some(Hit(at[..1], a))
  {
    hide FindMatchString;
    hide Overlap;
    var i, j, k := StepsOfWay(ring, ts);
    hide Deepest;
    var a, rest := ring[i], ts[|ring[i].str|..];
    var b := a.kids[j];
    ThreeNodeWay(a, ts, j, k);
    OverlapIsPrefix(b, b.kids[k], rest);
    if Overlap(b, b.kids[k]) {
      var again := FindMatchString(b.kids[k], rest).value;
      assert [i] + ([j, k] + again.at) == [i, j, k] + again.at;
    } else {
      assert [i] + [] == [i, j, k][..1];
    }
  }

  lemma {:induction false} StepsOfWay(ring: seq<Node>, ts: Str) returns (i: nat, j: nat, k: nat)
    requires Proper(ring) && Depth(ring, ts) == 3
    ensures
      && Deepest(ring, ts).value.at == [i, j, k]
      && i == EqualInitial(ring, ts) < |ring| && ring[i].str <= ts
      && var a, rest := ring[i], ts[|ring[i].str|..];
         && j == EqualInitial(a.kids, rest) < |a.kids| && a.kids[j].str <= rest
         && var b, rest' := a.kids[j], rest[|a.kids[j].str|..];
            && k == EqualInitial(b.kids, rest') < |b.kids| && b.kids[k].str <= rest'
            && Depth(b.kids[k].kids, rest'[|b.kids[k].str|..]) == 0
            && Way(ring, ts) == (a, b, b.kids[k])
  {
    i := EqualInitial(ring, ts);
    DepthUnfolds(ring, ts);
    var a, rest := ring[i], ts[|ring[i].str|..];
    j := EqualInitial(a.kids, rest);
    DepthUnfolds(a.kids, rest);
    var b, rest' := a.kids[j], rest[|a.kids[j].str|..];
    k := EqualInitial(b.kids, rest');
    DepthUnfolds(b.kids, rest');
  }

  /** On any trie, a way of three nodes is read rightly exactly when its third node overlaps its second
      and the repeated lookup stops there. */
  lemma {:induction false} ThreeNodesExactIff(ring: seq<Node>, ts: Str)
    requires Proper(ring) && Depth(ring, ts) == 3
    ensures var (a, b, c) := Way(ring, ts);
      FindString(ring, ts) == Deepest(ring, ts) <==> Overlap(b, c) && StaysAt(c, ts[|a.str|..])
  {
    ThreeNodeLookup(ring, ts);
    hide FindString;
    hide Deepest;
    hide Proper;
    var at := Deepest(ring, ts).value.at;
    var (a, b, c) := Way(ring, ts);
    if Overlap(b, c) {
      var again := FindMatchString(c, ts[|a.str|..]).value;
      if again.at == [] {
        ReachedFromBelow(c, ts[|a.str|..]);
        assert at + [] == at;
      } else {
        assert |at + again.at| > |at|;
      }
    } else {
      assert |at[..1]| == 1;
    }
  }

  /** What findMatchString returns at the address [] is the node it started from. */
  lemma {:induction false} ReachedFromBelow(n: Node, ts: Str)
    requires Fine(n) && n.str <= ts && FindMatchString(n, ts).value.at == []
    ensures FindMatchString(n, ts).value.node == n
  {
    var f := FindString(n.kids, ts[|n.str|..]);
    if f.Some? {
      var lm := FindMatchString(f.value.node, ts[|n.str|..]);
      assert lm.Some? ==> |f.value.at + lm.value.at| > 0;
    }
  }

  // ---------- soundness ----------

  /** The lookup returns a node of the trie, whose path need not be a prefix of the text. */
  lemma {:induction false} MatchIsThere(n: Node, ts: Str) returns (w: Str)
    requires Fine(n) && n.str <= ts
    ensures var f := FindMatchString(n, ts).value;
      if f.at == [] then f.node == n && w == n.str
      else n.str <= w && Reaches(n.kids, f.at, w[|n.str|..], f.node)
    decreases |ts|, 0
  {
    var rest := ts[|n.str|..];
    var i := EqualInitial(n.kids, rest);
    w := n.str;
    if i < |n.kids| && n.kids[i].str <= rest {
      var v := StringIsThere(n.kids, rest);
      var child := FindString(n.kids, rest).value;
      if child.node.str <= rest {
        var u := MatchIsThere(child.node, rest);
        var lm := FindMatchString(child.node, rest).value;
        w := JoinedPaths(n.kids, child.at, v, child.node, lm.at, u, lm.node);
        assert (n.str + w)[|n.str|..] == w;
        w := n.str + w;
        assert |child.at + lm.at| > 0;
      }
    }
  }

  lemma {:induction false} StringIsThere(ring: seq<Node>, ts: Str) returns (w: Str)
    requires Proper(ring) && FindString(ring, ts).Some?
    ensures var f := FindString(ring, ts).value; Reaches(ring, f.at, w, f.node)
    decreases |ts|, 1
  {
    var i := EqualInitial(ring, ts);
    w := MatchIsThere(ring[i], ts);
    var f := FindMatchString(ring[i], ts).value;
    assert ([i] + f.at)[1..] == f.at;
  }

  lemma {:induction false} JoinedPaths(ring: seq<Node>, at: seq<nat>, v: Str, m: Node, below: seq<nat>, u: Str, n: Node)
      returns (w: Str)
    requires Reaches(ring, at, v, m) && m.str <= u
    requires if below == [] then n == m && u == m.str else Reaches(m.kids, below, u[|m.str|..], n)
    ensures Reaches(ring, at + below, w, n)
    decreases |at|
  {
    var r := ring[at[0]];
    if |at| == 1 {
      w := u;
      assert (at + below)[1..] == below;
    } else {
      var x := JoinedPaths(r.kids, at[1..], v[|r.str|..], m, below, u, n);
      w := r.str + x;
      assert w[|r.str|..] == x && (at + below)[1..] == at[1..] + below;
    }
  }

  /** The path of what the lookup returns, if it returns anything, is a prefix of the text. */
  ghost predicate SoundAt(ring: seq<Node>, ts: Str)
    requires Proper(ring)
  {
    FindString(ring, ts).Some? ==>
      exists w: Str :: w <= ts && Reaches(ring, FindString(ring, ts).value.at, w, FindString(ring, ts).value.node)
  }

  /** On any trie with distinct initials: on a way of three nodes the lookup is sound exactly unless the
      third node overlaps the second and the repeated lookup goes on below it. */
  lemma {:induction false} ThreeNodesSoundIff(ring: seq<Node>, ts: Str)
    requires Proper(ring) && Distinct(ring) && Depth(ring, ts) == 3
    ensures var (a, b, c) := Way(ring, ts);
      SoundAt(ring, ts) <==> !Overlap(b, c) || StaysAt(c, ts[|a.str|..])
  {
    ThreeNodeLookup(ring, ts);
    ThreeNodesExactIff(ring, ts);
    var w := DeepestIsSound(ring, ts);
    hide FindString;
    hide Deepest;
    hide Proper;
    hide Distinct;
    var at := Deepest(ring, ts).value.at;
    var (a, b, c) := Way(ring, ts);
    if !Overlap(b, c) {
      assert Reaches(ring, at[..1], a.str, a);
    } else if !StaysAt(c, ts[|a.str|..]) {
      var again := FindMatchString(c, ts[|a.str|..]).value;
      if again.at == [] {
        ReachedFromBelow(c, ts[|a.str|..]);
      }
      if v: Str :| v <= ts && Reaches(ring, at + again.at, v, again.node) {
        BelowIsNonEmpty(ring, at + again.at, v, again.node);
        DeepestIsDeepest(ring, ts, at + again.at, v, again.node);
      }
    }
  }

  /** Nothing stands below the third level. */
  predicate ThreeLevels(ring: seq<Node>) {
    forall i, j, k :: 0 <= i < |ring| && 0 <= j < |ring[i].kids| && 0 <= k < |ring[i].kids[j].kids| ==>
      ring[i].kids[j].kids[k].kids == []
  }

  /** Each node of the third level overlaps its parent. */
  predicate ThirdsOverlap(ring: seq<Node>) {
    forall i, j, k :: 0 <= i < |ring| && 0 <= j < |ring[i].kids| && 0 <= k < |ring[i].kids[j].kids| ==>
      Overlap(ring[i].kids[j], ring[i].kids[j].kids[k])
  }

  /** The third node on the way `at` overlaps the second. */
  predicate ThirdOverlaps(ring: seq<Node>, at: seq<nat>) {
    && |at| == 3 && at[0] < |ring| && at[1] < |ring[at[0]].kids|
    && at[2] < |ring[at[0]].kids[at[1]].kids|
    && Overlap(ring[at[0]].kids[at[1]], ring[at[0]].kids[at[1]].kids[at[2]])
  }

  /** On every trie of at most three levels: the lookup returns the deepest match, but the first node
      of a way of three whose third node does not overlap the second. */
  lemma {:induction false} ThreeLevelLookup(ring: seq<Node>, ts: Str)
    requires Proper(ring) && ThreeLevels(ring)
    ensures var d, f := Deepest(ring, ts), FindString(ring, ts);
      if d.Some? && |d.value.at| > 2 && !ThirdOverlaps(ring, d.value.at)
      then d.value.at[0] < |ring| && f == Some(Hit(d.value.at[..1], ring[d.value.at[0]]))
      else f == d
  {
    if Depth(ring, ts) <= 2 {
      ShortWaysAreFound(ring, ts);
    } else {
      ThirdIsLast(ring, ts);
      ThreeNodeLookup(ring, ts);
      var (a, b, c) := Way(ring, ts);
      var at := Deepest(ring, ts).value.at;
      hide Deepest;
      hide FindString;
      if Overlap(b, c) {
        assert at + [] == at;
      }
    }
  }

  lemma {:induction false} ThirdIsLast(ring: seq<Node>, ts: Str)
    requires Proper(ring) && ThreeLevels(ring) && Depth(ring, ts) > 2
    ensures Depth(ring, ts) == 3
    ensures var (a, b, c) := Way(ring, ts);
      c.kids == [] && (c.str <= ts[|a.str|..] ==> FindMatchString(c, ts[|a.str|..]) == Some(Hit([], c)))
  {
    var i := EqualInitial(ring, ts);
    DepthUnfolds(ring, ts);
    var a, rest := ring[i], ts[|ring[i].str|..];
    var j := EqualInitial(a.kids, rest);
    DepthUnfolds(a.kids, rest);
    var b, rest' := a.kids[j], rest[|a.kids[j].str|..];
    DepthUnfolds(b.kids, rest');
    assert b.kids[EqualInitial(b.kids, rest')].kids == [];
  }

  /** So the lookup is right there exactly when the way has at most two nodes, or three of which the
      last two overlap. */
  lemma {:induction false} ThreeLevelsExactIff(ring: seq<Node>, ts: Str)
    requires Proper(ring) && ThreeLevels(ring)
    ensures FindString(ring, ts) == Deepest(ring, ts) <==>
      (Deepest(ring, ts).Some? ==>
        |Deepest(ring, ts).value.at| <= 2 || ThirdOverlaps(ring, Deepest(ring, ts).value.at))
  {
    ThreeLevelLookup(ring, ts);
  }

  /** The lookup never returns a node that is not a match, on a trie of at most three levels or on a
      way without overlaps. */
  lemma {:induction false} LookupIsSound(ring: seq<Node>, ts: Str) returns (w: Str)
    requires Proper(ring) && (ThreeLevels(ring) || Plain(ring, ts)) && FindString(ring, ts).Some?
    ensures w <= ts && Reaches(ring, FindString(ring, ts).value.at, w, FindString(ring, ts).value.node)
  {
    if Plain(ring, ts) {
      w := PlainIsSound(ring, ts);
    } else {
      ThreeLevelLookup(ring, ts);
      if FindString(ring, ts) == Deepest(ring, ts) {
        w := DeepestIsSound(ring, ts);
      } else {
        DepthUnfolds(ring, ts);
        w := ring[EqualInitial(ring, ts)].str;
      }
    }
  }

  lemma {:induction false} NodeIsReached(ring: seq<Node>, i: nat, j: nat, k: nat) returns (w: Str)
    requires i < |ring| && j < |ring[i].kids| && k < |ring[i].kids[j].kids|
    ensures Reaches(ring, [i, j, k], w, ring[i].kids[j].kids[k])
  {
    var a, b, c := ring[i], ring[i].kids[j], ring[i].kids[j].kids[k];
    w := a.str + (b.str + c.str);
    assert [i, j, k][1..] == [j, k] && [j, k][1..] == [k];
    assert w[|a.str|..] == b.str + c.str;
    assert (b.str + c.str)[|b.str|..] == c.str;
  }

  /** On tries of at most three levels, whose rings have distinct initials, the lookup is right for
      every input exactly when each node of the third level overlaps its parent. */
  lemma {:induction false} ThreeLevelsExactEverywhereIff(ring: seq<Node>)
    requires Proper(ring) && Distinct(ring) && ThreeLevels(ring)
    ensures (forall ts: Str :: FindString(ring, ts) == Deepest(ring, ts)) <==> ThirdsOverlap(ring)
  {
    hide FindString;
    hide Deepest;
    hide Proper;
    hide Distinct;
    hide Overlap;
    if !ThirdsOverlap(ring) {
      var i, j, k :| 0 <= i < |ring| && 0 <= j < |ring[i].kids| && 0 <= k < |ring[i].kids[j].kids| &&
        !Overlap(ring[i].kids[j], ring[i].kids[j].kids[k]);
      var w := NodeIsReached(ring, i, j, k);
      DeepestIsDeepest(ring, w, [i, j, k], w, ring[i].kids[j].kids[k]);
      ThreeLevelsExactIff(ring, w);
    } else {
      forall ts: Str ensures FindString(ring, ts) == Deepest(ring, ts) {
        if Deepest(ring, ts).Some? {
          WayIsThere(ring, ts);
        }
        ThreeLevelsExactIff(ring, ts);
      }
    }
  }

  lemma {:induction false} WayIsThere(ring: seq<Node>, ts: Str)
    requires Proper(ring) && ThreeLevels(ring) && Deepest(ring, ts).Some?
    requires ThirdsOverlap(ring)
    ensures |Deepest(ring, ts).value.at| <= 2 || ThirdOverlaps(ring, Deepest(ring, ts).value.at)
  {
    ThreeLevelLookup(ring, ts);
    var i := EqualInitial(ring, ts);
    var a, rest := ring[i], ts[|ring[i].str|..];
    DepthUnfolds(ring, ts);
    DepthUnfolds(a.kids, rest);
    if Depth(ring, ts) > 2 {
      var j := EqualInitial(a.kids, rest);
      DepthUnfolds(a.kids[j].kids, rest[|a.kids[j].str|..]);
    }
  }

  // ---------- the trie as a whole ----------

  /** Nothing stands below the second level. */
  predicate Shallow(ring: seq<Node>) {
    forall i, j :: 0 <= i < |ring| && 0 <= j < |ring[i].kids| ==> ring[i].kids[j].kids == []
  }

  predicate NeverOverlaps(n: Node) {
    forall i :: 0 <= i < |n.kids| ==> !Overlap(n, n.kids[i]) && NeverOverlaps(n.kids[i])
  }

  predicate OverlapFree(ring: seq<Node>) {
    forall i, j :: 0 <= i < |ring| && 0 <= j < |ring[i].kids| ==> NeverOverlaps(ring[i].kids[j])
  }

  lemma {:induction false} NeverOverlapsIsPlain(n: Node, rest: Str)
    requires Proper(n.kids) && NeverOverlaps(n)
    ensures PlainBelow(n, rest)
    decreases n
  {
    var i := EqualInitial(n.kids, rest);
    if i < |n.kids| && n.kids[i].str <= rest {
      NeverOverlapsIsPlain(n.kids[i], rest[|n.kids[i].str|..]);
    }
  }

  lemma {:induction false} OverlapFreeIsPlain(ring: seq<Node>, ts: Str)
    requires Proper(ring) && OverlapFree(ring)
    ensures Plain(ring, ts)
  {
    var i := EqualInitial(ring, ts);
    if i < |ring| && ring[i].str <= ts {
      var rest := ts[|ring[i].str|..];
      var j := EqualInitial(ring[i].kids, rest);
      if j < |ring[i].kids| && ring[i].kids[j].str <= rest {
        NeverOverlapsIsPlain(ring[i].kids[j], rest[|ring[i].kids[j].str|..]);
      }
    }
  }

  lemma {:induction false} ShallowBounds(ring: seq<Node>, ts: Str)
    requires Proper(ring) && Shallow(ring) && Deepest(ring, ts).Some?
    ensures |Deepest(ring, ts).value.at| <= 2
  {
    var i := EqualInitial(ring, ts);
    var kids, rest := ring[i].kids, ts[|ring[i].str|..];
    var j := EqualInitial(kids, rest);
    if j < |kids| && kids[j].str <= rest {
      assert Deepest(kids[j].kids, rest[|kids[j].str|..]).None?;
    }
  }

  lemma {:induction false} ShallowIsExact(ring: seq<Node>, ts: Str)
    requires Proper(ring) && Shallow(ring)
    ensures FindString(ring, ts) == Deepest(ring, ts)
  {
    if Deepest(ring, ts).Some? {
      ShallowBounds(ring, ts);
    }
    ShortWaysAreFound(ring, ts);
  }

  lemma {:induction false} ThirdLevelMisleads(ring: seq<Node>, i: nat, j: nat) returns (w: Str)
    requires Proper(ring) && Distinct(ring) && OverlapFree(ring)
    requires i < |ring| && j < |ring[i].kids| && ring[i].kids[j].kids != []
    ensures FindString(ring, w) != Deepest(ring, w)
  {
    var c := ring[i].kids[j].kids[0];
    w := NodeIsReached(ring, i, j, 0);
    hide *;
    DeepestIsDeepest(ring, w, [i, j, 0], w, c);
    OverlapFreeIsPlain(ring, w);
    LookupIsExactIff(ring, w);
  }

  /** On an overlap-free trie, the code's lookup agrees with the reference on every input exactly when
      the trie has no third level. */
  lemma {:induction false} LookupIsExactEverywhereIff(ring: seq<Node>)
    requires Proper(ring) && Distinct(ring) && OverlapFree(ring)
    ensures (forall ts: Str :: FindString(ring, ts) == Deepest(ring, ts)) <==> Shallow(ring)
  {
    hide FindString;
    hide Deepest;
    hide Proper;
    hide Distinct;
    hide OverlapFree;
    if Shallow(ring) {
      forall ts: Str ensures FindString(ring, ts) == Deepest(ring, ts) {
        ShallowIsExact(ring, ts);
      }
    } else {
      var i, j :| 0 <= i < |ring| && 0 <= j < |ring[i].kids| && ring[i].kids[j].kids != [];
      var w := ThirdLevelMisleads(ring, i, j);
    }
  }
}
