/** The data of the token trie: nodes, paths, and what "the deepest match" means. */
module TrieModel {
  import opened Wrappers

  /** A character of a C string; 0 only ends one. */
  type Ch = c: int | -128 <= c < 128 && c != 0 witness 1
  type Str = seq<Ch>

  datatype Token = Token(str: Str, code: int)

  /** A CmMatch: its piece of string, the token that ends here if any, and its sibling ring `kids`
      listed from the ring head on. */
  datatype Node = Node(str: Str, token: Option<Token>, kids: seq<Node>)

  /** CmMatch::initial, and what *ts is: 0 where the string ends. */
  function Initial(s: Str): int {
    if s == [] then 0 else s[0]
  }

  /** No node has an empty piece of string, here or below. */
  predicate NonEmpty(ring: seq<Node>) {
    forall i :: 0 <= i < |ring| ==> ring[i].str != [] && NonEmpty(ring[i].kids)
  }

  predicate Fine(n: Node) {
    (n.str == [] ==> n.kids == []) && NonEmpty(n.kids)
  }

  /** At most leaves of the topmost ring have an empty piece of string: what adding the empty string
      makes. */
  predicate Proper(ring: seq<Node>) {
    forall i :: 0 <= i < |ring| ==> Fine(ring[i])
  }

  /** In every ring, no two nodes start with the same character. */
  ghost predicate Distinct(ring: seq<Node>) {
    && (forall i, j :: 0 <= i < j < |ring| ==> Initial(ring[i].str) != Initial(ring[j].str))
    && (forall i :: 0 <= i < |ring| ==> Distinct(ring[i].kids))
  }

  ghost predicate Increasing(ring: seq<Node>) {
    forall i, j :: 0 <= i < j < |ring| ==> Initial(ring[i].str) < Initial(ring[j].str)
  }

  /** In every ring, the first characters strictly increase. */
  ghost predicate Sorted(ring: seq<Node>) {
    && Increasing(ring)
    && (forall i :: 0 <= i < |ring| ==> Sorted(ring[i].kids))
  }

  lemma {:induction false} SortedIsDistinct(ring: seq<Node>)
    requires Sorted(ring)
    ensures Distinct(ring)
    decreases ring
  {
    forall i | 0 <= i < |ring| ensures Distinct(ring[i].kids) {
      SortedIsDistinct(ring[i].kids);
    }
  }

  /** Node n stands at address `at` of the ring and w is the whole string spelled on the way to it. */
  ghost predicate Reaches(ring: seq<Node>, at: seq<nat>, w: Str, n: Node)
    decreases |at|
  {
    && at != [] && at[0] < |ring|
    && var m := ring[at[0]];
       && m.str <= w
       && if |at| == 1 then w == m.str && n == m else Reaches(m.kids, at[1..], w[|m.str|..], n)
  }

  /** Below the topmost ring no node has an empty piece of string. */
  lemma {:induction false} BelowIsNonEmpty(ring: seq<Node>, at: seq<nat>, w: Str, n: Node)
    requires Proper(ring) && Reaches(ring, at, w, n) && (|at| > 1 || NonEmpty(ring))
    ensures n.str != []
    decreases |at|
  {
    var m := ring[at[0]];
    if |at| > 1 {
      assert Fine(m);
      assert forall i :: 0 <= i < |m.kids| ==> NonEmpty(m.kids[i].kids);
      BelowIsNonEmpty(m.kids, at[1..], w[|m.str|..], n);
    }
  }

  datatype Hit = Hit(at: seq<nat>, node: Node)

  /** CmMatch::equalInitial: the first node that starts like ts, or |ring|. */
  function EqualInitial(ring: seq<Node>, ts: Str): (i: nat)
    requires Proper(ring)
    ensures i <= |ring| && (i < |ring| ==> Initial(ring[i].str) == Initial(ts))
    ensures forall j :: 0 <= j < i ==> Initial(ring[j].str) != Initial(ts)
  {
    if ring == [] || Initial(ring[0].str) == Initial(ts) then 0 else 1 + EqualInitial(ring[1..], ts)
  }

  /** The reference lookup: descend as long as a node's piece is a prefix of what is left of ts. */
  ghost function Deepest(ring: seq<Node>, ts: Str): (h: Option<Hit>)
    requires Proper(ring)
    ensures h.Some? ==> h.value.at != []
    decreases ring
  {
    var i := EqualInitial(ring, ts);
    if i == |ring| || !(ring[i].str <= ts) then None
    else
      match Deepest(ring[i].kids, ts[|ring[i].str|..])
      case None => Some(Hit([i], ring[i]))
      case Some(h) => Some(Hit([i] + h.at, h.node))
  }

  /** What the reference lookup finds is a node whose whole path is a prefix of the input. */
  lemma {:induction false} DeepestIsSound(ring: seq<Node>, ts: Str) returns (w: Str)
    requires Proper(ring) && Deepest(ring, ts).Some?
    ensures w <= ts && Reaches(ring, Deepest(ring, ts).value.at, w, Deepest(ring, ts).value.node)
    decreases ring
  {
    var i := EqualInitial(ring, ts);
    var rest := ts[|ring[i].str|..];
    match Deepest(ring[i].kids, rest)
    case None =>
      w := ring[i].str;
    case Some(h) =>
      var v := DeepestIsSound(ring[i].kids, rest);
      w := ring[i].str + v;
      assert ([i] + h.at)[1..] == h.at && w[|ring[i].str|..] == v;
      assert w <= ts by { assert ts == ring[i].str + rest; }
  }

  /** ... and every such node lies on the way to it, when siblings start differently. (A node without
      characters of its own is not looked for before the text ends.) */
  lemma {:induction false} DeepestIsDeepest(ring: seq<Node>, ts: Str, at: seq<nat>, w: Str, n: Node)
    requires Proper(ring) && Distinct(ring)
    requires Reaches(ring, at, w, n) && w <= ts && (n.str != [] || w == ts)
    ensures Deepest(ring, ts).Some? && at <= Deepest(ring, ts).value.at
    ensures w == ts ==> Deepest(ring, ts).value == Hit(at, n)
    decreases |at|
  {
    var i, m := at[0], ring[at[0]];
    assert ts[..|m.str|] == w[..|m.str|] == m.str;
    assert EqualInitial(ring, ts) == i;
    var rest := ts[|m.str|..];
    if |at| > 1 {
      DeepestIsDeepest(m.kids, rest, at[1..], w[|m.str|..], n);
      assert at == [i] + at[1..];
    } else if w == ts {
      assert rest == [];
    }
  }

  /** Distinct addresses spell distinct strings. */
  lemma {:induction false} PathsAreUnique(ring: seq<Node>, at: seq<nat>, at': seq<nat>, w: Str, n: Node, n': Node)
    requires Proper(ring) && Distinct(ring)
    requires Reaches(ring, at, w, n) && Reaches(ring, at', w, n')
    ensures at == at' && n == n'
  {
    DeepestIsDeepest(ring, w, at, w, n);
    DeepestIsDeepest(ring, w, at', w, n');
  }
}
