/** Insertion into the token trie (CmMatch.cc:53-134), and what whole runs of addToken keep. */
module TrieInsert {
  import opened Wrappers
  import opened TrieModel

  /** CmMatch::greaterEqualInitial: the first node that does not start below c, or |ring|. */
  function GreaterEqualInitial(ring: seq<Node>, c: int): (i: nat)
    ensures i <= |ring| && (i < |ring| ==> c <= Initial(ring[i].str))
    ensures forall j :: 0 <= j < i ==> Initial(ring[j].str) < c
  {
    if ring == [] || c <= Initial(ring[0].str) then 0 else 1 + GreaterEqualInitial(ring[1..], c)
  }

  /** The length of the longest common prefix: the comparison loop of matchTokenString. */
  function Common(a: Str, b: Str): (l: nat)
    ensures l <= |a| && l <= |b| && forall j :: 0 <= j < l ==> a[j] == b[j]
    ensures l < |a| && l < |b| ==> a[l] != b[l]
  {
    if a == [] || b == [] || a[0] != b[0] then 0
    else 1 + Common(a[1..], b[1..])
  }

  /** Where the node that a split puts on top goes. The code links it with p->insert(ulm), where p is
      the ring predecessor of the node being replaced; insert links *before* its receiver. `InPlace`
      is the evident intention. */
  datatype Linking = AsWritten | InPlace

  function Relinked(ring: seq<Node>, i: nat, top: Node, how: Linking): (r: seq<Node>)
    requires i < |ring|
    ensures |r| == |ring|
    ensures Proper(ring) && Fine(top) ==> Proper(r)
    ensures NonEmpty(ring) && top.str != [] && NonEmpty(top.kids) ==> NonEmpty(r)
  {
    if how == InPlace then ring[i := top]
    else if i == 0 then ring[1..] + [top]
    else ring[..i - 1] + [top, ring[i - 1]] + ring[i + 1..]
  }

  function Inserted(ring: seq<Node>, i: nat, n: Node): (r: seq<Node>)
    requires i <= |ring|
  {
    ring[..i] + [n] + ring[i..]
  }

  /** addTokenString with matchTokenString, setToken and split. None: setToken aborts, because the
      node that spells ts already has a token. (With nothing to add to nothing, the code would take the
      ring head for a node.) */
  function Add(ring: seq<Node>, t: Token, ts: Str, how: Linking): (r: Option<seq<Node>>)
    requires Proper(ring) && (ts != [] || ring != [])
    ensures r.Some? ==> Proper(r.value) && r.value != []
    ensures r.Some? && NonEmpty(ring) && ts != [] ==> NonEmpty(r.value)
    decreases |ts|
  {
    var i := GreaterEqualInitial(ring, Initial(ts));
    if i == |ring| || Initial(ring[i].str) != Initial(ts) then Some(Inserted(ring, i, Node(ts, Some(t), [])))
    else
      var n := ring[i];
      var l := Common(n.str, ts);
      assert n.str != [] ==> l > 0;
      if l == |n.str| && l == |ts| then
        if n.token.Some? then None else Some(ring[i := n.(token := Some(t))])
      else if l == |n.str| then
        match Add(n.kids, t, ts[l..], how)
        case None => None
        case Some(kids) => Some(ring[i := n.(kids := kids)])
      else
        var lower := n.(str := n.str[l..]);
        if l == |ts| then Some(Relinked(ring, i, Node(ts, Some(t), [lower]), how))
        else
          match Add([lower], t, ts[l..], how)
          case None => None
          case Some(kids) => Some(Relinked(ring, i, Node(n.str[..l], None, kids), how))
  }

  // ---------- contents ----------

  /** All pairs of a string spelled from `pre` on and the token stored there. */
  ghost function Contents(ring: seq<Node>, pre: Str): set<(Str, Token)>
    decreases ring, 1
  {
    if ring == [] then {} else NodeContents(ring[0], pre) + Contents(ring[1..], pre)
  }

  ghost function NodeContents(n: Node, pre: Str): set<(Str, Token)>
    decreases n, 0
  {
    (if n.token.Some? then {(pre + n.str, n.token.value)} else {}) + Contents(n.kids, pre + n.str)
  }

  lemma {:induction false} ContentsConcat(a: seq<Node>, b: seq<Node>, pre: Str)
    ensures Contents(a + b, pre) == Contents(a, pre) + Contents(b, pre)
  {
    if a == [] {
      assert a + b == b;
    } else {
      ContentsConcat(a[1..], b, pre);
      assert (a + b)[1..] == a[1..] + b && (a + b)[0] == a[0];
    }
  }

  lemma {:induction false} ContentsOne(n: Node, pre: Str)
    ensures Contents([n], pre) == NodeContents(n, pre)
  {
    assert [n][1..] == [];
  }

  lemma {:induction false} ContentsInserted(ring: seq<Node>, i: nat, n: Node, pre: Str)
    requires i <= |ring|
    ensures Contents(Inserted(ring, i, n), pre) == Contents(ring, pre) + NodeContents(n, pre)
  {
    assert ring == ring[..i] + ring[i..];
    ContentsConcat(ring[..i], ring[i..], pre);
    ContentsConcat(ring[..i] + [n], ring[i..], pre);
    ContentsConcat(ring[..i], [n], pre);
    ContentsOne(n, pre);
  }

  /** The nodes other than number i. */
  function Without(ring: seq<Node>, i: nat): seq<Node>
    requires i < |ring|
  {
    ring[..i] + ring[i + 1..]
  }

  lemma {:induction false} ContentsWithout(ring: seq<Node>, i: nat, pre: Str)
    requires i < |ring|
    ensures Contents(ring, pre) == Contents(Without(ring, i), pre) + NodeContents(ring[i], pre)
  {
    assert ring == Inserted(Without(ring, i), i, ring[i]);
    ContentsInserted(Without(ring, i), i, ring[i], pre);
  }

  lemma {:induction false} RelinkedAt(ring: seq<Node>, i: nat, top: Node, how: Linking) returns (at: nat)
    requires i < |ring|
    ensures at < |ring| && Relinked(ring, i, top, how) == Inserted(Without(ring, i), at, top)
  {
    hide NonEmpty;
    hide Proper;
    at := if how == InPlace then i else if i == 0 then |ring| - 1 else i - 1;
  }

  /** Either way of linking keeps all other nodes. */
  lemma {:induction false} ContentsRelinked(ring: seq<Node>, i: nat, top: Node, how: Linking, pre: Str)
    requires i < |ring|
    ensures Contents(Relinked(ring, i, top, how), pre) == Contents(Without(ring, i), pre) + NodeContents(top, pre)
  {
    var at := RelinkedAt(ring, i, top, how);
    ContentsInserted(Without(ring, i), at, top, pre);
  }

  lemma {:induction false} ContentsUpdated(ring: seq<Node>, i: nat, n: Node, pre: Str)
    requires i < |ring|
    ensures Contents(ring[i := n], pre) == Contents(Without(ring, i), pre) + NodeContents(n, pre)
  {
    ContentsRelinked(ring, i, n, InPlace, pre);
  }

  lemma {:induction false} LowerKeepsContents(n: Node, l: nat, pre: Str)
    requires l <= |n.str|
    ensures Contents([n.(str := n.str[l..])], pre + n.str[..l]) == NodeContents(n, pre)
  {
    ContentsOne(n.(str := n.str[l..]), pre + n.str[..l]);
    assert pre + n.str[..l] + n.str[l..] == pre + n.str;
  }

  lemma {:induction false} NodeGains(n: Node, n': Node, t: Token, pre: Str, rest: Str)
    requires n'.str == n.str
    requires rest == [] ==> n.token == None && n' == n.(token := Some(t))
    requires rest != [] ==> n'.token == n.token
    requires rest != [] ==>
      Contents(n'.kids, pre + n.str) == Contents(n.kids, pre + n.str) + {(pre + n.str + rest, t)}
    ensures NodeContents(n', pre) == NodeContents(n, pre) + {(pre + n.str + rest, t)}
  {
    assert pre + n.str + [] == pre + n.str;
  }

  lemma {:induction false} KidsAreProper(ring: seq<Node>, i: nat)
    requires Proper(ring) && i < |ring|
    ensures Proper(ring[i].kids) && (ring[i].str == [] ==> ring[i].kids == [])
  {
    assert Fine(ring[i]);
  }

  /** An addition adds exactly the new pair, through every branch and with either way of linking. */
  lemma {:induction false} AddConserves(ring: seq<Node>, t: Token, ts: Str, how: Linking, pre: Str)
    requires Proper(ring) && (ts != [] || ring != []) && Add(ring, t, ts, how).Some?
    ensures Contents(Add(ring, t, ts, how).value, pre) == Contents(ring, pre) + {(pre + ts, t)}
    decreases |ts|, 1
  {
    var i := GreaterEqualInitial(ring, Initial(ts));
    if i == |ring| || Initial(ring[i].str) != Initial(ts) {
      ContentsInserted(ring, i, Node(ts, Some(t), []), pre);
    } else {
      KidsAreProper(ring, i);
      hide Contents;
      hide NodeContents;
      hide Without;
      hide Common;
      hide GreaterEqualInitial;
      hide Relinked;
      hide Proper;
      hide NonEmpty;
      var n := ring[i];
      var l := Common(n.str, ts);
      ContentsWithout(ring, i, pre);
      if l < |n.str| {
        SplitConserves(ring, i, t, ts, how, pre);
      } else {
        var n' := if l == |ts| then n.(token := Some(t)) else n.(kids := Add(n.kids, t, ts[l..], how).value);
        if l < |ts| {
          AddConserves(n.kids, t, ts[l..], how, pre + n.str);
        }
        NodeGains(n, n', t, pre, ts[l..]);
        ContentsUpdated(ring, i, n', pre);
        assert pre + n.str + ts[l..] == pre + ts by { assert n.str == ts[..l]; }
      }
    }
  }

  lemma {:induction false} SplitConserves(ring: seq<Node>, i: nat, t: Token, ts: Str, how: Linking, pre: Str)
    requires Proper(ring) && (ts != [] || ring != []) && Add(ring, t, ts, how).Some?
    requires i == GreaterEqualInitial(ring, Initial(ts)) < |ring| && Initial(ring[i].str) == Initial(ts)
    requires Common(ring[i].str, ts) < |ring[i].str|
    ensures Contents(Add(ring, t, ts, how).value, pre) ==
      Contents(Without(ring, i), pre) + NodeContents(ring[i], pre) + {(pre + ts, t)}
    decreases |ts|, 0
  {
    var n := ring[i];
    var l := Common(n.str, ts);
    var lower, upper := n.(str := n.str[l..]), n.str[..l];
    LowerKeepsContents(n, l, pre);
    if l == |ts| {
      assert upper == ts;
      ContentsRelinked(ring, i, Node(ts, Some(t), [lower]), how, pre);
    } else {
      assert l > 0;
      AddConserves([lower], t, ts[l..], how, pre + upper);
      assert pre + upper + ts[l..] == pre + ts;
      ContentsRelinked(ring, i, Node(upper, None, Add([lower], t, ts[l..], how).value), how, pre);
    }
  }

  /** addToken aborts only when the string is already in the trie. */
  lemma {:induction false} AbortMeansDuplicate(ring: seq<Node>, t: Token, ts: Str, how: Linking, pre: Str)
      returns (old_: Token)
    requires Proper(ring) && (ts != [] || ring != []) && Add(ring, t, ts, how).None?
    ensures (pre + ts, old_) in Contents(ring, pre)
    decreases |ts|
  {
    var i := GreaterEqualInitial(ring, Initial(ts));
    var n := ring[i];
    var l := Common(n.str, ts);
    ContentsWithout(ring, i, pre);
    if l == |n.str| && l == |ts| {
      old_ := n.token.value;
      assert n.str == ts;
    } else if l == |n.str| {
      old_ := AbortMeansDuplicate(n.kids, t, ts[l..], how, pre + n.str);
      assert pre + n.str + ts[l..] == pre + ts;
    } else {
      assert false;
    }
  }

  // ---------- order ----------

  /** The addition splits a node that has siblings. */
  predicate SplitsCrowded(ring: seq<Node>, ts: Str)
    requires Proper(ring) && (ts != [] || ring != [])
    decreases |ts|
  {
    var i := GreaterEqualInitial(ring, Initial(ts));
    i < |ring| && Initial(ring[i].str) == Initial(ts) &&
      var l := Common(ring[i].str, ts);
      if l < |ring[i].str| then |ring| > 1
      else l > 0 && l < |ts| && SplitsCrowded(ring[i].kids, ts[l..])
  }

  lemma {:induction false} InsertedIncreasing(ring: seq<Node>, i: nat, n: Node)
    requires Increasing(ring) && i <= |ring|
    requires forall j :: 0 <= j < i ==> Initial(ring[j].str) < Initial(n.str)
    requires forall j :: i <= j < |ring| ==> Initial(n.str) < Initial(ring[j].str)
    ensures Increasing(Inserted(ring, i, n))
  {
  }

  lemma {:induction false} InsertedSorted(ring: seq<Node>, i: nat, n: Node)
    requires Sorted(ring) && Sorted(n.kids)
    requires i <= |ring| && Increasing(Inserted(ring, i, n))
    ensures Sorted(Inserted(ring, i, n))
  {
  }

  lemma {:induction false} UpdatedSorted(ring: seq<Node>, i: nat, n: Node)
    requires Sorted(ring) && i < |ring| && Initial(n.str) == Initial(ring[i].str)
    ensures Sorted(ring[i := n]) <==> Sorted(n.kids)
  {
    assert ring[i := n][i] == n;
  }

  lemma {:induction false} RelinkedSorted(ring: seq<Node>, i: nat, n: Node)
    requires Sorted(ring) && i < |ring| && Initial(n.str) == Initial(ring[i].str) && Sorted(n.kids)
    ensures Sorted(Relinked(ring, i, n, AsWritten)) <==> |ring| == 1
  {
    var r := Relinked(ring, i, n, AsWritten);
    if |ring| == 1 {
      assert r == [n];
    } else if i == 0 {
      assert r[0] == ring[1] && r[|r| - 1] == n;
    } else {
      assert r[i - 1] == n && r[i] == ring[i - 1];
    }
  }

  /** When an addition keeps the rings in order. Linked in place, always; as written, exactly when it
      splits no node that has siblings. */
  lemma {:induction false} AddKeepsSortedIff(ring: seq<Node>, t: Token, ts: Str, how: Linking)
    requires Proper(ring) && Sorted(ring) && (ts != [] || ring != []) && Add(ring, t, ts, how).Some?
    ensures Sorted(Add(ring, t, ts, how).value) <==> how == InPlace || !SplitsCrowded(ring, ts)
    decreases |ts|
  {
    var i := GreaterEqualInitial(ring, Initial(ts));
    if i == |ring| || Initial(ring[i].str) != Initial(ts) {
      InsertedIncreasing(ring, i, Node(ts, Some(t), []));
      InsertedSorted(ring, i, Node(ts, Some(t), []));
    } else {
      var n := ring[i];
      var l := Common(n.str, ts);
      assert n.str != [] ==> l > 0;
      if l == |n.str| && l == |ts| {
        UpdatedSorted(ring, i, n.(token := Some(t)));
      } else if l == |n.str| {
        AddKeepsSortedIff(n.kids, t, ts[l..], how);
        UpdatedSorted(ring, i, n.(kids := Add(n.kids, t, ts[l..], how).value));
      } else {
        var lower := n.(str := n.str[l..]);
        var top := Node(ts, Some(t), [lower]);
        assert Proper([lower]) && Sorted([lower]);
        if l < |ts| {
          AddKeepsSortedIff([lower], t, ts[l..], how);
          top := Node(n.str[..l], None, Add([lower], t, ts[l..], how).value);
        }
        if how == InPlace {
          UpdatedSorted(ring, i, top);
        } else {
          RelinkedSorted(ring, i, top);
        }
      }
    }
  }
}
