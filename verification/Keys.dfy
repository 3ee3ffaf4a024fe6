/**
 The partial parity keys of the index (src/matching_generator.cc, build_map and
 search_for_matching): for a mask of parity positions, the nodes at those positions followed by the
 mask itself.
 */
module Keys {
  import opened BitTricks
  import opened Stripes

  /** The entries of `pd` selected by the one bits of `bits`, lowest bit first. */
  function Pick(pd: seq<nat>, bits: nat): seq<nat> {
    if pd == [] then []
    else (if bits % 2 == 1 then [pd[0]] else []) + Pick(pd[1..], bits / 2)
  }

  function PartialKey(pd: seq<nat>, mask: nat): seq<nat> {
    Pick(pd, mask) + [mask]
  }

  /** The key-building loop of `build_map` and `search_for_matching`. */
  method MakeKey(pd: seq<nat>, mask: nat) returns (key: seq<nat>)
    ensures key == PartialKey(pd, mask)
  {
    key := [];
    var bits := mask;
    for i := 0 to |pd|
      invariant key + Pick(pd[i..], bits) == Pick(pd, mask)
    {
      assert pd[i..][1..] == pd[i + 1..];
      if bits % 2 == 1 {
        key := key + [pd[i]];
      }
      bits := bits / 2;
    }
    key := key + [mask];
  }

  // -------------------------------------------------------------------------------------------
  // When two stripes share a key
  // -------------------------------------------------------------------------------------------

  predicate BitSet(x: nat, i: nat) {
    if i == 0 then x % 2 == 1 else BitSet(x / 2, i - 1)
  }

  ghost predicate AgreeOn(p: seq<nat>, q: seq<nat>, mask: nat)
    requires |p| == |q|
  {
    forall i :: 0 <= i < |p| && BitSet(mask, i) ==> p[i] == q[i]
  }

  lemma AgreeOnTail(p: seq<nat>, q: seq<nat>, mask: nat)
    requires |p| == |q| > 0
    ensures AgreeOn(p, q, mask) <==> (mask % 2 == 1 ==> p[0] == q[0]) && AgreeOn(p[1..], q[1..], mask / 2)
  {
  }

  lemma {:induction false} PickAgree(p: seq<nat>, q: seq<nat>, mask: nat)
    requires |p| == |q|
    ensures |Pick(p, mask)| == |Pick(q, mask)|
    ensures Pick(p, mask) == Pick(q, mask) <==> AgreeOn(p, q, mask)
  {
    if p != [] {
      AgreeOnTail(p, q, mask);
      PickAgree(p[1..], q[1..], mask / 2);
      var x, y := Pick(p[1..], mask / 2), Pick(q[1..], mask / 2);
      if mask % 2 == 1 {
        assert ([p[0]] + x)[1..] == x && ([q[0]] + y)[1..] == y;
      } else {
        assert [] + x == x && [] + y == y;
      }
    }
  }

  /** Two stripes have a key in common exactly when it is the key of one mask, on whose positions
      their parity blocks are aligned. */
  lemma SameKeyIff(p: seq<nat>, q: seq<nat>, s: nat, t: nat)
    requires |p| == |q|
    ensures PartialKey(p, s) == PartialKey(q, t) <==> s == t && AgreeOn(p, q, s)
  {
    var x, y := Pick(p, s), Pick(q, t);
    assert (x + [s])[..|x|] == x && (y + [t])[..|y|] == y;
    assert (x + [s])[|x|] == s && (y + [t])[|y|] == t;
    if PartialKey(p, s) == PartialKey(q, t) {
      assert |x| == |y|;
    }
    PickAgree(p, q, s);
  }

  // -------------------------------------------------------------------------------------------
  // A pair of low cost meets under some key
  // -------------------------------------------------------------------------------------------

  lemma {:induction false} MismatchesTail(p: seq<nat>, q: seq<nat>, i: nat)
    requires i <= |p| == |q| && 0 < i
    ensures Mismatches(p, q, i) == (if p[0] == q[0] then 0 else 1) + Mismatches(p[1..], q[1..], i - 1)
  {
    if i > 1 {
      MismatchesTail(p, q, i - 1);
    } else {
      assert Mismatches(p, q, 0) == 0;
    }
  }

  /** The mask of the first `k` aligned positions. */
  function CommonMask(p: seq<nat>, q: seq<nat>, k: nat): nat
    requires |p| == |q|
  {
    if p == [] || k == 0 then 0
    else if p[0] == q[0] then 1 + 2 * CommonMask(p[1..], q[1..], k - 1)
    else 2 * CommonMask(p[1..], q[1..], k)
  }

  lemma {:induction false} CommonMaskPicks(p: seq<nat>, q: seq<nat>, k: nat)
    requires |p| == |q| && k + Mismatches(p, q, |p|) <= |p|
    ensures CommonMask(p, q, k) < Pow2(|p|)
    ensures Pop(CommonMask(p, q, k)) == k
    ensures Pick(p, CommonMask(p, q, k)) == Pick(q, CommonMask(p, q, k))
    decreases |p|
  {
    if p != [] {
      MismatchesTail(p, q, |p|);
      var k' := if p[0] == q[0] && k > 0 then k - 1 else k;
      if k == 0 {
        MismatchesBound(p[1..], q[1..], |p| - 1);
      }
      CommonMaskPicks(p[1..], q[1..], k');
      var mask, rest := CommonMask(p, q, k), CommonMask(p[1..], q[1..], k');
      if k > 0 {
        HalfSum(rest, mask % 2);
        assert mask == 2 * rest + mask % 2;
        assert Pop(mask) == mask % 2 + Pop(mask / 2);
      } else {
        assert rest == 0;
      }
    }
  }

  /** Stripes with at least `k` aligned parity positions have the key of some `k`-element mask in
      common. */
  lemma SharedKey(p: seq<nat>, q: seq<nat>, k: nat) returns (mask: nat)
    requires |p| == |q| && k + Mismatches(p, q, |p|) <= |p|
    ensures mask < Pow2(|p|) && Pop(mask) == k
    ensures PartialKey(p, mask) == PartialKey(q, mask)
  {
    CommonMaskPicks(p, q, k);
    mask := CommonMask(p, q, k);
  }
}
