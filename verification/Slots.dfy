/** Raw slot sequences: what the arrays of v6eval's collections hold. */
module Slots {

  /** An element is an untyped pointer; 0 is the null pointer. */
  type Ptr = nat
  const NULL: Ptr := 0

  /** The non-null slots of s, in order: what a rescan of the slots sees. */
  ghost function Compact(s: seq<Ptr>): seq<Ptr> {
    if s == [] then []
    else (if s[0] == NULL then [] else [s[0]]) + Compact(s[1..])
  }

  ghost predicate AllNull(s: seq<Ptr>) {
    forall i :: 0 <= i < |s| ==> s[i] == NULL
  }

  lemma {:induction false} CompactConcat(a: seq<Ptr>, b: seq<Ptr>)
    ensures Compact(a + b) == Compact(a) + Compact(b)
  {
    if a == [] {
      assert a + b == b;
    } else {
      var head := if a[0] == NULL then [] else [a[0]];
      calc {
        Compact(a + b);
        { assert (a + b)[1..] == a[1..] + b && (a + b)[0] == a[0]; }
        head + Compact(a[1..] + b);
        { CompactConcat(a[1..], b); }
        head + (Compact(a[1..]) + Compact(b));
        (head + Compact(a[1..])) + Compact(b);
      }
    }
  }

  lemma {:induction false} CompactAllNull(s: seq<Ptr>)
    requires AllNull(s)
    ensures Compact(s) == []
  {
    if s != [] {
      CompactAllNull(s[1..]);
    }
  }

  /** A rescan changes nothing exactly when there is no null to drop. */
  lemma {:induction false} CompactFixpoint(s: seq<Ptr>)
    ensures |Compact(s)| <= |s| && NULL !in Compact(s)
    ensures Compact(s) == s <==> NULL !in s
  {
    if s != [] {
      CompactFixpoint(s[1..]);
      assert s == [s[0]] + s[1..];
      if s[0] == NULL {
        assert |Compact(s)| < |s|;
      }
    }
  }

  lemma {:induction false} CompactMiddle(a: seq<Ptr>, x: Ptr, b: seq<Ptr>)
    ensures Compact(a + [x] + b) == Compact(a) + (if x == NULL then [] else [x]) + Compact(b)
  {
    CompactConcat(a + [x], b);
    CompactConcat(a, [x]);
    assert [x][1..] == [];
  }

  lemma {:induction false} CompactSnoc(s: seq<Ptr>, k: nat)
    requires k < |s|
    ensures Compact(s[..k + 1]) == Compact(s[..k]) + (if s[k] == NULL then [] else [s[k]])
  {
    assert s[..k + 1] == s[..k] + [s[k]] + [];
    CompactMiddle(s[..k], s[k], []);
  }
}
