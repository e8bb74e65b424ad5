/** Whole runs of addToken followed by lookups. */
module TrieRuns {
  import opened Wrappers
  import opened TrieModel
  import opened TrieInsert
  import opened TrieLookup

  // ---------- contents and addresses ----------

  /** What stands at an address is in the contents under the string the address spells. */
  lemma {:induction false} ReachedIsStored(ring: seq<Node>, at: seq<nat>, w: Str, n: Node, pre: Str)
    requires Reaches(ring, at, w, n) && n.token.Some?
    ensures (pre + w, n.token.value) in Contents(ring, pre)
    decreases |at|
  {
    var m := ring[at[0]];
    ContentsWithout(ring, at[0], pre);
    if |at| > 1 {
      ReachedIsStored(m.kids, at[1..], w[|m.str|..], n, pre + m.str);
      assert pre + m.str + w[|m.str|..] == pre + w;
    }
  }

  /** ... and every stored pair stands at some address. */
  lemma {:induction false} StoredIsReached(ring: seq<Node>, p: (Str, Token), pre: Str)
      returns (at: seq<nat>, w: Str, n: Node)
    requires p in Contents(ring, pre)
    ensures Reaches(ring, at, w, n) && n.token == Some(p.1) && p.0 == pre + w
    decreases ring
  {
    if p in NodeContents(ring[0], pre) {
      var m := ring[0];
      if m.token.Some? && p == (pre + m.str, m.token.value) {
        at, w, n := [0], m.str, m;
      } else {
        var at', w', n' := StoredIsReached(m.kids, p, pre + m.str);
        at, w, n := [0] + at', m.str + w', n';
        assert at[1..] == at' && w[|m.str|..] == w';
        assert pre + m.str + w' == pre + w;
      }
    } else {
      var at', w', n' := StoredIsReached(ring[1..], p, pre);
      at, w, n := [at'[0] + 1] + at'[1..], w', n';
      assert at[1..] == at'[1..] && ring[at[0]] == ring[1..][at'[0]];
    }
  }

  // ---------- runs ----------

  /** The empty string is not the very first one. */
  predicate Startable(ring: seq<Node>, ts: seq<Token>) {
    ring != [] || ts == [] || ts[0].str != []
  }

  ghost function AddAll(ring: seq<Node>, ts: seq<Token>, how: Linking): (r: Option<seq<Node>>)
    requires Proper(ring) && Startable(ring, ts)
    ensures r.Some? ==> Proper(r.value)
    decreases |ts|
  {
    if ts == [] then Some(ring)
    else
      match Add(ring, ts[0], ts[0].str, how)
      case None => None
      case Some(next) => AddAll(next, ts[1..], how)
  }

  /** Tokens that may be registered in one run: no two strings alike. */
  ghost predicate Registrable(ts: seq<Token>) {
    forall i, j :: 0 <= i < j < |ts| ==> ts[i].str != ts[j].str
  }

  ghost function Pairs(ts: seq<Token>): set<(Str, Token)> {
    set i | 0 <= i < |ts| :: (ts[i].str, ts[i])
  }

  /** No run over registrable tokens aborts, and it stores exactly these tokens under their strings,
      with either way of linking. */
  lemma {:induction false} RunConserves(ring: seq<Node>, ts: seq<Token>, how: Linking)
    requires Proper(ring) && Registrable(ts) && Startable(ring, ts)
    requires forall p, i :: p in Contents(ring, []) && 0 <= i < |ts| ==> p.0 != ts[i].str
    ensures AddAll(ring, ts, how).Some?
    ensures Contents(AddAll(ring, ts, how).value, []) == Contents(ring, []) + Pairs(ts)
    decreases |ts|
  {
    if ts == [] {
      assert Pairs(ts) == {};
    } else {
      var t := ts[0];
      assert [] + t.str == t.str;
      if Add(ring, t, t.str, how).None? {
        var old_ := AbortMeansDuplicate(ring, t, t.str, how, []);
        assert false;
      }
      var next := Add(ring, t, t.str, how).value;
      AddConserves(ring, t, t.str, how, []);
      RunConserves(next, ts[1..], how);
      PairsCons(ts);
    }
  }

  lemma {:induction false} PairsCons(ts: seq<Token>)
    requires ts != []
    ensures Pairs(ts) == {(ts[0].str, ts[0])} + Pairs(ts[1..])
  {
    forall p | p in Pairs(ts) ensures p in {(ts[0].str, ts[0])} + Pairs(ts[1..]) {
      var i :| 0 <= i < |ts| && p == (ts[i].str, ts[i]);
      assert i > 0 ==> ts[i] == ts[1..][i - 1];
    }
    forall p | p in Pairs(ts[1..]) ensures p in Pairs(ts) {
      var i :| 0 <= i < |ts[1..]| && p == (ts[1..][i].str, ts[1..][i]);
      assert ts[1..][i] == ts[i + 1];
    }
  }

  /** No addition of the run splits a node that has siblings. */
  ghost predicate NeverCrowded(ring: seq<Node>, ts: seq<Token>, how: Linking)
    requires Proper(ring) && Startable(ring, ts)
    decreases |ts|
  {
    ts != [] ==>
      && !SplitsCrowded(ring, ts[0].str)
      && (Add(ring, ts[0], ts[0].str, how).Some? ==>
        NeverCrowded(Add(ring, ts[0], ts[0].str, how).value, ts[1..], how))
  }

  /** The rings are in order before the run and after each of its additions. */
  ghost predicate SortedThroughout(ring: seq<Node>, ts: seq<Token>, how: Linking)
    requires Proper(ring) && Startable(ring, ts)
    decreases |ts|
  {
    && Sorted(ring)
    && (ts != [] && Add(ring, ts[0], ts[0].str, how).Some? ==>
      SortedThroughout(Add(ring, ts[0], ts[0].str, how).value, ts[1..], how))
  }

  /** Rings stay strictly increasing over every run linked in place, and over a run as written exactly
      when it never splits a node with siblings. */
  lemma {:induction false} RunKeepsSortedIff(ring: seq<Node>, ts: seq<Token>, how: Linking)
    requires Proper(ring) && Sorted(ring) && Startable(ring, ts)
    ensures SortedThroughout(ring, ts, how) <==> how == InPlace || NeverCrowded(ring, ts, how)
    decreases |ts|
  {
    if ts != [] {
      if Add(ring, ts[0], ts[0].str, how).None? {
        AbortSplitsNothing(ring, ts[0], ts[0].str, how);
      } else {
        var next := Add(ring, ts[0], ts[0].str, how).value;
        AddKeepsSortedIff(ring, ts[0], ts[0].str, how);
        if Sorted(next) {
          RunKeepsSortedIff(next, ts[1..], how);
        } else {
          assert !SortedThroughout(next, ts[1..], how);
        }
      }
    }
  }

  lemma {:induction false} AbortSplitsNothing(ring: seq<Node>, t: Token, ts: Str, how: Linking)
    requires Proper(ring) && (ts != [] || ring != []) && Add(ring, t, ts, how).None?
    ensures !SplitsCrowded(ring, ts)
    decreases |ts|
  {
    var i := GreaterEqualInitial(ring, Initial(ts));
    var n := ring[i];
    var l := Common(n.str, ts);
    if l == |n.str| && l < |ts| {
      AbortSplitsNothing(n.kids, t, ts[l..], how);
    }
  }

  lemma {:induction false} SortedAtTheEnd(ring: seq<Node>, ts: seq<Token>, how: Linking)
    requires Proper(ring) && Startable(ring, ts)
    requires SortedThroughout(ring, ts, how) && AddAll(ring, ts, how).Some?
    ensures Sorted(AddAll(ring, ts, how).value)
    decreases |ts|
  {
    if ts != [] {
      SortedAtTheEnd(Add(ring, ts[0], ts[0].str, how).value, ts[1..], how);
    }
  }

  // ---------- lookups after a run ----------

  /** All tokens of a trie are stored under their own strings. */
  ghost predicate Labelled(ring: seq<Node>) {
    forall p :: p in Contents(ring, []) ==> p.0 == p.1.str
  }

  ghost predicate Stored(ring: seq<Node>, t: Token) {
    (t.str, t) in Contents(ring, [])
  }

  /** The reference lookup finds every stored token by its own string. */
  lemma {:induction false} StoredTokenIsDeepest(ring: seq<Node>, t: Token)
    requires Proper(ring) && Distinct(ring) && Stored(ring, t)
    ensures Deepest(ring, t.str).Some? && Deepest(ring, t.str).value.node.token == Some(t)
  {
    var at, w, n := StoredIsReached(ring, (t.str, t), []);
    DeepestIsDeepest(ring, t.str, at, w, n);
  }

  /** If the deepest match carries a token, that token is the longest stored prefix of the input. */
  lemma {:induction false} DeepestTokenIsLongest(ring: seq<Node>, s: Str, t: Token, other: Token)
    requires Proper(ring) && Distinct(ring) && Labelled(ring)
    requires Deepest(ring, s).Some? && Deepest(ring, s).value.node.token == Some(t)
    requires Stored(ring, other) && other.str <= s
    ensures Stored(ring, t) && t.str <= s && |other.str| <= |t.str|
  {
    var d := Deepest(ring, s).value;
    var w := DeepestIsSound(ring, s);
    ReachedIsStored(ring, d.at, w, d.node, []);
    assert [] + w == w;
    var at, v, n := StoredIsReached(ring, (other.str, other), []);
    if |at| > 1 {
      BelowIsNonEmpty(ring, at, v, n);
    }
    if n.str != [] {
      DeepestIsDeepest(ring, s, at, v, n);
      PrefixesSpellPrefixes(ring, at, d.at, v, w, n, d.node);
    }
  }

  lemma {:induction false} PrefixesSpellPrefixes(ring: seq<Node>, a: seq<nat>, b: seq<nat>, v: Str, w: Str, m: Node,
      n: Node)
    requires a <= b && Reaches(ring, a, v, m) && Reaches(ring, b, w, n)
    ensures |v| <= |w|
    decreases |a|
  {
    if |a| > 1 {
      var k := |ring[a[0]].str|;
      PrefixesSpellPrefixes(ring[a[0]].kids, a[1..], b[1..], v[k..], w[k..], m, n);
    }
  }

  /** CmMatch::lex: the token found and how far the input pointer moves. */
  ghost function Lex(ring: seq<Node>, s: Str): (Option<Token>, nat)
    requires Proper(ring)
  {
    match FindToken(ring, s)
    case None => (None, 0)
    case Some(t) => (Some(t), |t.str|)
  }

  /** An address spells one string. */
  lemma {:induction false} OnePath(ring: seq<Node>, at: seq<nat>, v: Str, w: Str, m: Node, n: Node)
    requires Reaches(ring, at, v, m) && Reaches(ring, at, w, n)
    ensures v == w && m == n
    decreases |at|
  {
    var r := ring[at[0]];
    assert v[..|r.str|] == w[..|r.str|] == r.str;
    if |at| > 1 {
      OnePath(r.kids, at[1..], v[|r.str|..], w[|r.str|..], m, n);
      assert v == v[..|r.str|] + v[|r.str|..] && w == w[..|r.str|] + w[|r.str|..];
    }
  }

  /** On every trie, the token that the lookup returns is a stored one, standing at the end of its own
      string; the text begins with it exactly when the lookup is sound there. */
  lemma {:induction false} FoundTokenIsStored(ring: seq<Node>, s: Str) returns (at: seq<nat>, n: Node)
    requires Proper(ring) && Labelled(ring) && FindToken(ring, s).Some?
    ensures var t := FindToken(ring, s).value;
      && FindString(ring, s) == Some(Hit(at, n)) && Reaches(ring, at, t.str, n)
      && Stored(ring, t) && (t.str <= s <==> SoundAt(ring, s))
  {
    var w := StringIsThere(ring, s);
    var f := FindString(ring, s).value;
    at, n := f.at, f.node;
    ReachedIsStored(ring, at, w, n, []);
    assert [] + w == w;
    if v: Str :| v <= s && Reaches(ring, at, v, n) {
      OnePath(ring, at, v, w, n, n);
    }
  }

  /** The lexer returns stored tokens only, and moves over exactly the one it returns if and only if the
      lookup is sound, as it is on tries of at most three levels and on overlap-free ways. */
  lemma {:induction false} LexConsumesItsTokenIff(ring: seq<Node>, s: Str)
    requires Proper(ring) && Labelled(ring) && Lex(ring, s).0.Some?
    ensures var (t, advance) := Lex(ring, s);
      && Stored(ring, t.value) && advance == |t.value.str|
      && (advance <= |s| && s == t.value.str + s[advance..] <==> SoundAt(ring, s))
      && (ThreeLevels(ring) || Plain(ring, s) ==> SoundAt(ring, s))
  {
    var at, n := FoundTokenIsStored(ring, s);
    if ThreeLevels(ring) || Plain(ring, s) {
      var w := LookupIsSound(ring, s);
    }
  }

  /** The lexer returns the longest stored prefix of its input wherever the way to the deepest match
      has at most two nodes and that match carries a token. */
  lemma {:induction false} LexIsLongestMatch(ring: seq<Node>, s: Str, other: Token)
    requires Proper(ring) && Distinct(ring) && Labelled(ring)
    requires Deepest(ring, s).Some? && |Deepest(ring, s).value.at| <= 2
    requires Deepest(ring, s).value.node.token.Some?
    requires Stored(ring, other) && other.str <= s
    ensures var (t, advance) := Lex(ring, s);
      t.Some? && Stored(ring, t.value) && t.value.str <= s && |other.str| <= advance == |t.value.str|
  {
    ShortWaysAreFound(ring, s);
    DeepestTokenIsLongest(ring, s, Deepest(ring, s).value.node.token.value, other);
  }

  /** A stored token is found by its own string exactly when the lookup of that string is exact. */
  lemma {:induction false} TokenIsFoundIffExact(ring: seq<Node>, t: Token)
    requires Proper(ring) && Distinct(ring) && Labelled(ring) && Stored(ring, t)
    ensures FindToken(ring, t.str) == Some(t) <==> FindString(ring, t.str) == Deepest(ring, t.str)
  {
    StoredTokenIsDeepest(ring, t);
    if FindToken(ring, t.str) == Some(t) {
      var at, n := FoundTokenIsStored(ring, t.str);
      DeepestIsDeepest(ring, t.str, at, t.str, n);
    }
  }

  /** Which stored tokens the code finds by their own strings: all on the first two levels; on the third
      exactly those whose piece of string overlaps that of the parent and where the repeated lookup
      stops; deeper ones, on ways without overlaps, not at all. */
  lemma {:induction false} TokenIsFoundIff(ring: seq<Node>, t: Token)
    requires Proper(ring) && Distinct(ring) && Labelled(ring) && Stored(ring, t)
    ensures Deepest(ring, t.str).Some? && Deepest(ring, t.str).value.node.token == Some(t)
    ensures var k := Depth(ring, t.str);
      && (k <= 2 ==> FindToken(ring, t.str) == Some(t))
      && (k == 3 ==>
        var (a, b, c) := Way(ring, t.str);
        FindToken(ring, t.str) == Some(t) <==> Overlap(b, c) && StaysAt(c, t.str[|a.str|..]))
      && (Plain(ring, t.str) ==> (FindToken(ring, t.str) == Some(t) <==> k <= 2))
  {
    StoredTokenIsDeepest(ring, t);
    TokenIsFoundIffExact(ring, t);
    if Depth(ring, t.str) <= 2 {
      ShortWaysAreFound(ring, t.str);
    }
    if Depth(ring, t.str) == 3 {
      ThreeNodesExactIff(ring, t.str);
    }
    if Plain(ring, t.str) {
      LookupIsExactIff(ring, t.str);
    }
  }

  /** From an empty trie: any run over registrable tokens that keeps the rings in order, as every run
      linked in place does and every run as written that splits no node with siblings, stores all of
      its tokens. Each is found by the reference lookup, and by the code's exactly when that is exact (for
      which see TokenIsFoundIff). */
  lemma {:induction false} EveryTokenIsFound(ts: seq<Token>, how: Linking, k: nat)
    requires Registrable(ts) && Startable([], ts) && k < |ts| && (how == InPlace || NeverCrowded([], ts, how))
    ensures AddAll([], ts, how).Some?
    ensures var ring := AddAll([], ts, how).value;
      && Sorted(ring) && Distinct(ring) && Labelled(ring) && Stored(ring, ts[k])
      && Deepest(ring, ts[k].str).Some? && Deepest(ring, ts[k].str).value.node.token == Some(ts[k])
      && (FindToken(ring, ts[k].str) == Some(ts[k]) <==> FindString(ring, ts[k].str) == Deepest(ring, ts[k].str))
      && (Depth(ring, ts[k].str) <= 2 ==> FindToken(ring, ts[k].str) == Some(ts[k]))
  {
    RunConserves([], ts, how);
    RunKeepsSortedIff([], ts, how);
    SortedAtTheEnd([], ts, how);
    var ring := AddAll([], ts, how).value;
    SortedIsDistinct(ring);
    assert (ts[k].str, ts[k]) in Pairs(ts);
    TokenIsFoundIff(ring, ts[k]);
    TokenIsFoundIffExact(ring, ts[k]);
  }
}
