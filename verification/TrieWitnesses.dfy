/** Small runs of addToken on which the code misses what it is for. */
module TrieWitnesses {
  import opened Wrappers
  import opened TrieModel
  import opened TrieInsert
  import opened TrieLookup
  import opened TrieRuns

  const A: Ch := 97
  const B: Ch := 98
  const C: Ch := 99
  const D: Ch := 100
  const E: Ch := 101
  const X: Ch := 120
  const Z: Ch := 122

  function Leaf(s: Str, code: int, whole: Str): Node { Node(s, Some(Token(whole, code)), []) }

  lemma {:induction false} AddFresh(ring: seq<Node>, t: Token, ts: Str)
    requires Proper(ring) && ts != [] && |ring| <= 2
    requires forall i :: 0 <= i < |ring| ==> Initial(ring[i].str) < ts[0]
    ensures Add(ring, t, ts, AsWritten) == Some(ring + [Node(ts, Some(t), [])])
  {
    assert Inserted(ring, |ring|, Node(ts, Some(t), [])) == ring + [Node(ts, Some(t), [])];
  }

  lemma {:induction false} AddBelow(n: Node, t: Token, ts: Str, kids: seq<Node>)
    requires n.str != [] && NonEmpty(n.kids) && n.str < ts && Add(n.kids, t, ts[|n.str|..], AsWritten) == Some(kids)
    ensures Proper([n]) && Add([n], t, ts, AsWritten) == Some([n.(kids := kids)])
  {
    assert Common(n.str, ts) == |n.str|;
    assert n.str[0] == ts[0] && GreaterEqualInitial([n], ts[0]) == 0;
    assert [n][0 := n.(kids := kids)] == [n.(kids := kids)];
  }

  lemma {:induction false} AddAllUnfolds(ring: seq<Node>, t: Token, ts: seq<Token>, next: seq<Node>)
    requires Proper(ring) && t.str != []
    requires Add(ring, t, t.str, AsWritten) == Some(next)
    ensures AddAll(ring, [t] + ts, AsWritten) == AddAll(next, ts, AsWritten)
  {
    assert ([t] + ts)[1..] == ts;
  }

  /** "ab", "cd", "ce", "ax": splitting "cd" puts the new node in front of "ab", the ring is out of
      order, "ax" lands in front of all, and "ab" is never looked at again. */
  lemma {:induction false} MisplacedSplitHidesToken()
    ensures var t1 := Token([A, B], 1);
      var ts := [t1, Token([C, D], 2), Token([C, E], 3), Token([A, X], 4)];
      && Registrable(ts)
      && AddAll([], ts, AsWritten).Some?
      && var ring := AddAll([], ts, AsWritten).value;
         Stored(ring, t1) && FindToken(ring, t1.str) == None && !Sorted(ring)
  {
    var t1, t2, t3, t4 := Token([A, B], 1), Token([C, D], 2), Token([C, E], 3), Token([A, X], 4);
    var ts := [t1, t2, t3, t4];
    MisplacingRun(t1, t2, t3, t4);
    var ring := AddAll([], ts, AsWritten).value;
    assert Stored(ring, t1) by {
      RunConserves([], ts, AsWritten);
      assert ts[0] == t1 && (ts[0].str, ts[0]) in Pairs(ts);
    }
    assert FindToken(ring, t1.str) == None by {
      assert EqualInitial(ring, t1.str) == 0;
      assert ring[0].str[1] != t1.str[1];
    }
    assert Initial(ring[1].str) > Initial(ring[2].str);
  }

  lemma {:induction false} AddAllEnds(ring: seq<Node>)
    requires Proper(ring)
    ensures AddAll(ring, [], AsWritten) == Some(ring)
  {
  }

  lemma {:induction false} TwoLevels(ring: seq<Node>)
    requires forall i :: 0 <= i < |ring| ==> ring[i].str != []
    requires forall i, k :: 0 <= i < |ring| && 0 <= k < |ring[i].kids| ==>
      ring[i].kids[k].str != [] && ring[i].kids[k].kids == []
    ensures NonEmpty(ring) && Proper(ring)
  {
    forall i | 0 <= i < |ring| ensures NonEmpty(ring[i].kids) {
    }
  }

  lemma {:induction false} GoesInFront(ab: Node, c: Node, t4: Token, ax: Node)
    requires Proper([c, ab]) && c.str == [C] && ab.str == [A, B] && t4 == Token([A, X], 4)
    requires ax == Leaf([A, X], 4, t4.str)
    ensures Add([c, ab], t4, t4.str, AsWritten) == Some([ax, c, ab])
  {
    assert GreaterEqualInitial([c, ab], A) == 0 && Inserted([c, ab], 0, ax) == [ax, c, ab];
  }

  lemma {:induction false} FreshStep(ring: seq<Node>, t: Token, rest: seq<Token>, next: seq<Node>)
    requires Proper(ring) && t.str != [] && |ring| <= 2
    requires forall i :: 0 <= i < |ring| ==> Initial(ring[i].str) < t.str[0]
    requires next == ring + [Node(t.str, Some(t), [])]
    ensures Proper(next) && AddAll(ring, [t] + rest, AsWritten) == AddAll(next, rest, AsWritten)
  {
    AddFresh(ring, t, t.str);
    hide *;
    AddAllUnfolds(ring, t, rest, next);
  }

  lemma {:induction false} TwoFresh(t1: Token, t2: Token, rest: seq<Token>, ab: Node, cd: Node)
    requires t1.str == [A, B] && t2.str == [C, D]
    requires ab == Node(t1.str, Some(t1), []) && cd == Node(t2.str, Some(t2), [])
    ensures Proper([ab, cd]) && AddAll([], [t1] + ([t2] + rest), AsWritten) == AddAll([ab, cd], rest, AsWritten)
  {
    hide Add;
    hide AddAll;
    TwoLevels([]);
    TwoLevels([ab]);
    FreshStep([], t1, [t2] + rest, [ab]);
    FreshStep([ab], t2, rest, [ab, cd]);
  }

  lemma {:induction false} TwoMore(ab: Node, cd: Node, c: Node, ax: Node, t3: Token, t4: Token)
    requires Proper([ab, cd]) && Proper([c, ab]) && Proper([ax, c, ab]) && t3.str != [] && t4.str != []
    requires Add([ab, cd], t3, t3.str, AsWritten) == Some([c, ab])
    requires Add([c, ab], t4, t4.str, AsWritten) == Some([ax, c, ab])
    ensures AddAll([ab, cd], [t3, t4], AsWritten) == Some([ax, c, ab])
  {
    hide Add;
    hide AddAll;
    hide Proper;
    assert [t3] + [t4] == [t3, t4] && [t4] + [] == [t4];
    AddAllUnfolds([ab, cd], t3, [t4], [c, ab]);
    AddAllUnfolds([c, ab], t4, [], [ax, c, ab]);
    AddAllEnds([ax, c, ab]);
  }

  lemma {:induction false} MisplacingRun(t1: Token, t2: Token, t3: Token, t4: Token)
    requires t1 == Token([A, B], 1) && t2 == Token([C, D], 2) && t3 == Token([C, E], 3) && t4 == Token([A, X], 4)
    ensures var c := Node([C], None, [Leaf([D], 2, t2.str), Leaf([E], 3, t3.str)]);
      AddAll([], [t1, t2, t3, t4], AsWritten) ==
        Some([Leaf([A, X], 4, t4.str), c, Leaf([A, B], 1, t1.str)])
  {
    var ab, cd, ax := Leaf([A, B], 1, t1.str), Leaf([C, D], 2, t2.str), Leaf([A, X], 4, t4.str);
    var c := Node([C], None, [Leaf([D], 2, t2.str), Leaf([E], 3, t3.str)]);
    hide Add;
    hide AddAll;
    hide Proper;
    assert [t1] + ([t2] + [t3, t4]) == [t1, t2, t3, t4];
    TwoFresh(t1, t2, [t3, t4], ab, cd);
    SplitMovesLeft(ab, cd, t3, c);
    TwoLevels([c, ab]);
    TwoLevels([ax, c, ab]);
    GoesInFront(ab, c, t4, ax);
    TwoMore(ab, cd, c, ax, t3, t4);
  }

  lemma {:induction false} SplitMovesLeft(ab: Node, cd: Node, t3: Token, c: Node)
    requires ab == Leaf([A, B], 1, [A, B]) && cd == Leaf([C, D], 2, [C, D]) && t3 == Token([C, E], 3)
    requires c == Node([C], None, [Leaf([D], 2, [C, D]), Leaf([E], 3, [C, E])])
    ensures Add([ab, cd], t3, t3.str, AsWritten) == Some([c, ab])
  {
    var d, e := Leaf([D], 2, [C, D]), Leaf([E], 3, [C, E]);
    assert GreaterEqualInitial([ab, cd], C) == 1;
    assert Common(cd.str, t3.str) == 1;
    assert t3.str[1..] == [E] && cd.(str := cd.str[1..]) == d && cd.str[..1] == [C];
    AddFresh([d], t3, [E]);
    assert [d] + [e] == [d, e];
    assert Relinked([ab, cd], 1, c, AsWritten) == [c, ab];
  }

  /** "a", "ab", "abc": looking up "abc" yields "a", although "abc" itself is stored and every ring is
      in order. */
  lemma {:induction false} ThirdLevelIsMissed()
    ensures var t1, t3 := Token([A], 1), Token([A, B, C], 3);
      var ts := [t1, Token([A, B], 2), t3];
      && Registrable(ts)
      && AddAll([], ts, AsWritten).Some?
      && var ring := AddAll([], ts, AsWritten).value;
         Stored(ring, t3) && Sorted(ring) && FindToken(ring, t3.str) == Some(t1)
  {
    var t1, t2, t3 := Token([A], 1), Token([A, B], 2), Token([A, B, C], 3);
    var ts := [t1, t2, t3];
    ChainOfThree(t1, t2, t3, A, B, [C]);
    var c := Node([C], Some(t3), []);
    var b := Node([B], Some(t2), [c]);
    var a := Node([A], Some(t1), [b]);
    SortedOne(c);
    SortedOne(b);
    SortedOne(a);
    LastOfThreeIsMissed(a, b, c);
    assert Stored([a], t3) by {
      RunConserves([], ts, AsWritten);
      assert ts[2] == t3 && (ts[2].str, ts[2]) in Pairs(ts);
    }
  }

  lemma {:induction false} SortedOne(n: Node)
    requires n.str != [] && NonEmpty(n.kids) && Sorted(n.kids)
    ensures NonEmpty([n]) && Proper([n]) && Sorted([n])
  {
  }

  lemma {:induction false} LastOfThreeIsMissed(a: Node, b: Node, c: Node)
    requires a.str == [A] && a.kids == [b] && b.str == [B] && b.kids == [c] && c.str == [C] && c.kids == []
    ensures Proper([a]) && FindToken([a], [A, B, C]) == a.token
  {
    assert NonEmpty(c.kids) && NonEmpty(b.kids) && NonEmpty(a.kids);
    assert [A, B, C][1..] == [B, C] && [B, C][1..] == [C] && [C][1..] == [];
    assert FindMatchString(c, [C]) == Some(Hit([], c));
    StepsOn(b, [B, C], 0);
    StepsBack(a, [A, B, C], 0, Hit([0], c));
  }

  /** "x", "xa", "xaa", "xaaaz": looking up "xaaz" yields the token "xaaaz", which the input does not
      begin with; lex would move over one character more than the input has. Every ring is in order. */
  lemma {:induction false} OverlapFindsWrongToken()
    ensures var t4 := Token([X, A, A, A, Z], 4);
      var ts := [Token([X], 1), Token([X, A], 2), Token([X, A, A], 3), t4];
      var s := [X, A, A, Z];
      && Registrable(ts)
      && AddAll([], ts, AsWritten).Some?
      && var ring := AddAll([], ts, AsWritten).value;
         Sorted(ring) && Lex(ring, s) == (Some(t4), 5) && !(t4.str <= s)
  {
    var t1, t2, t3, t4 := Token([X], 1), Token([X, A], 2), Token([X, A, A], 3), Token([X, A, A, A, Z], 4);
    var d := Node([A, Z], Some(t4), []);
    var c := Node([A], Some(t3), [d]);
    var b := Node([A], Some(t2), [c]);
    var a := Node([X], Some(t1), [b]);
    OverlappingRun(t1, t2, t3, t4, a, b, c, d);
    SortedOne(d);
    SortedOne(c);
    SortedOne(b);
    SortedOne(a);
    OverlapMisleads(a, b, c, d);
    assert t4.str[3] != [X, A, A, Z][3];
  }

  lemma {:induction false} OverlappingRun(t1: Token, t2: Token, t3: Token, t4: Token, a: Node, b: Node, c: Node,
      d: Node)
    requires t1.str == [X] && t2.str == [X, A] && t3.str == [X, A, A] && t4.str == [X, A, A, A, Z]
    requires d == Node([A, Z], Some(t4), []) && c == Node([A], Some(t3), [d])
    requires b == Node([A], Some(t2), [c]) && a == Node([X], Some(t1), [b])
    ensures AddAll([], [t1, t2, t3, t4], AsWritten) == Some([a])
  {
    var c0 := c.(kids := []);
    var b0 := b.(kids := [c0]);
    var a0 := a.(kids := [b0]);
    ChainOfThree(t1, t2, t3, X, A, [A]);
    AddAllConcat([], [t1, t2, t3], t4);
    assert [t1, t2, t3] + [t4] == [t1, t2, t3, t4];
    assert t4.str[1..] == [A, A, A, Z] && [A, A, A, Z][1..] == [A, A, Z] && [A, A, Z][1..] == [A, Z];
    AddFresh([], t4, [A, Z]);
    assert [] + [d] == [d];
    AddBelow(c0, t4, [A, A, Z], [d]);
    AddBelow(b0, t4, [A, A, A, Z], [c]);
    AddBelow(a0, t4, t4.str, [b]);
  }

  lemma {:induction false} AddAllConcat(ring: seq<Node>, ts: seq<Token>, t: Token)
    requires Proper(ring) && t.str != [] && Startable(ring, ts)
    requires AddAll(ring, ts, AsWritten).Some?
    ensures AddAll(ring, ts + [t], AsWritten) == Add(AddAll(ring, ts, AsWritten).value, t, t.str, AsWritten)
    decreases |ts|
  {
    if ts == [] {
      assert ts + [t] == [t] && [t][1..] == [];
    } else {
      assert (ts + [t])[1..] == ts[1..] + [t];
      AddAllConcat(Add(ring, ts[0], ts[0].str, AsWritten).value, ts[1..], t);
    }
  }

  lemma {:induction false} OverlapMisleads(a: Node, b: Node, c: Node, d: Node)
    requires a.str == [X] && a.kids == [b] && b.str == [A] && b.kids == [c]
    requires c.str == [A] && c.kids == [d] && d.str == [A, Z] && d.kids == []
    ensures Proper([a]) && FindToken([a], [X, A, A, Z]) == d.token
  {
    assert NonEmpty(d.kids) && NonEmpty(c.kids) && NonEmpty(b.kids) && NonEmpty(a.kids);
    assert [X, A, A, Z][1..] == [A, A, Z] && [A, A, Z][1..] == [A, Z] && [A, Z][1..] == [Z] && [A, Z][2..] == [];
    assert FindString(c.kids, [Z]).None?;
    assert FindMatchString(c, [A, Z]) == Some(Hit([], c));
    StepsOn(b, [A, A, Z], 0);
    assert FindMatchString(d, [A, Z]) == Some(Hit([], d));
    StepsOn(c, [A, A, Z], 0);
    assert FindString(a.kids, [A, A, Z]) == Some(Hit([0] + [0], c));
    assert FindMatchString(a, [X, A, A, Z]) == Some(Hit([0] + [0] + [0], d));
  }

  lemma {:induction false} ChainOfOne(t: Token, rest: seq<Token>, a: Node)
    requires t.str != [] && a == Node(t.str, Some(t), [])
    ensures Proper([a]) && AddAll([], [t] + rest, AsWritten) == AddAll([a], rest, AsWritten)
  {
    AddFresh([], t, t.str);
    assert [] + [a] == [a];
    hide Add;
    hide AddAll;
    AddAllUnfolds([], t, rest, [a]);
  }

  lemma {:induction false} ChainOfTwo(a: Node, t: Token, rest: seq<Token>, b: Node)
    requires a.str != [] && a.kids == [] && b.str != [] && t.str == a.str + b.str && b == Node(b.str, Some(t), [])
    ensures Proper([a]) && Proper([a.(kids := [b])])
    ensures AddAll([a], [t] + rest, AsWritten) == AddAll([a.(kids := [b])], rest, AsWritten)
  {
    assert t.str[|a.str|..] == b.str && [] + [b] == [b];
    AddFresh([], t, b.str);
    AddBelow(a, t, t.str, [b]);
    hide Add;
    hide AddAll;
    TwoLevels([a.(kids := [b])]);
    AddAllUnfolds([a], t, rest, [a.(kids := [b])]);
  }

  /** The run over three tokens whose strings extend one another. */
  lemma {:induction false} ChainOfThree(t1: Token, t2: Token, t3: Token, x: Ch, y: Ch, z: Str)
    requires t1.str == [x] && t2.str == [x, y] && t3.str == [x, y] + z && z != []
    ensures AddAll([], [t1, t2, t3], AsWritten) ==
      Some([Node([x], Some(t1), [Node([y], Some(t2), [Node(z, Some(t3), [])])])])
  {
    hide Add;
    hide AddAll;
    var c := Node(z, Some(t3), []);
    var b := Node([y], Some(t2), []);
    var a := Node([x], Some(t1), []);
    var a' := a.(kids := [b]);
    assert [t1] + [t2, t3] == [t1, t2, t3] && [t2] + [t3] == [t2, t3] && [t3] + [] == [t3];
    ChainOfOne(t1, [t2, t3], a);
    assert [x] + [y] == [x, y];
    ChainOfTwo(a, t2, [t3], b);
    assert t3.str[1..] == [y] + z && ([y] + z)[1..] == z && [] + [c] == [c];
    var b' := b.(kids := [c]);
    var a'' := a.(kids := [b']);
    AddFresh([], t3, z);
    AddBelow(b, t3, [y] + z, [c]);
    AddBelow(a', t3, t3.str, [b']);
    AddAllUnfolds([a'], t3, [], [a'']);
    assert NonEmpty([c]) && NonEmpty([b']);
    AddAllEnds([a'']);
  }
}
