/**
 The cost of a pair term by term (src/stripe.cc, compute_cost): where the merged parity blocks go, and what
 each position adds.
 */
module CostTerms {
  import opened Stripes

  /** A merged parity block takes a free node whenever one of its two nodes is free, the first stripe's
      before the second's. */
  lemma FreeNodeTaken(a: Dist, b: Dist, i: nat)
    requires i < |a.parity| == |b.parity|
    ensures a.parity[i] !in Occupied(a, b, i) ==> Occupied(a, b, i + 1) == Occupied(a, b, i) + {a.parity[i]}
    ensures a.parity[i] in Occupied(a, b, i) ==> Occupied(a, b, i + 1) == Occupied(a, b, i) + {b.parity[i]}
    ensures Occupied(a, b, i + 1) == Occupied(a, b, i) <==> {a.parity[i], b.parity[i]} <= Occupied(a, b, i)
  {
    var occ, next := Occupied(a, b, i), Occupied(a, b, i + 1);
    assert a.parity[i] !in occ ==> a.parity[i] in next;
    assert a.parity[i] in occ ==> b.parity[i] in next;
  }

  /** The parity positions among the first `i` both of whose nodes were taken already. */
  function Crowded(a: Dist, b: Dist, i: nat): nat
    requires i <= |a.parity| == |b.parity|
  {
    if i == 0 then 0
    else Crowded(a, b, i - 1) + if {a.parity[i - 1], b.parity[i - 1]} <= Occupied(a, b, i - 1) then 1 else 0
  }

  lemma {:induction false} OccupiedCount(a: Dist, b: Dist, i: nat)
    requires i <= |a.parity| == |b.parity|
    ensures |Occupied(a, b, i)| + Crowded(a, b, i) == |SetOf(a.data) + SetOf(b.data)| + i
  {
    if i > 0 {
      OccupiedCount(a, b, i - 1);
      FreeNodeTaken(a, b, i - 1);
    }
  }

  /** The cost, term by term: the data blocks on a node of the other stripe's data, the misaligned parity
      positions, and the positions that find both their nodes taken. */
  lemma CostTerms(c: Params, a: Dist, b: Dist)
    requires WellPlaced(c, a) && WellPlaced(c, b)
    ensures Cost(a, b)
         == |SetOf(a.data) * SetOf(b.data)| + Mismatches(a.parity, b.parity, c.m) + Crowded(a, b, c.m)
  {
    OccupiedCount(a, b, c.m);
    DistinctPart(c, a);
    DistinctPart(c, b);
    assert |SetOf(a.data) + SetOf(b.data)| == |SetOf(a.data)| + |SetOf(b.data)| - |SetOf(a.data) * SetOf(b.data)|;
  }

  ghost function MisalignedBelow(p: seq<nat>, q: seq<nat>, i: nat): set<nat>
    requires i <= |p| == |q|
  {
    set x: nat | x < i && p[x] != q[x]
  }

  /** `Mismatches` is the number of misaligned positions. */
  lemma {:induction false} MismatchesCount(p: seq<nat>, q: seq<nat>, i: nat)
    requires i <= |p| == |q|
    ensures Mismatches(p, q, i) == |MisalignedBelow(p, q, i)|
  {
    if i > 0 {
      MismatchesCount(p, q, i - 1);
      assert MisalignedBelow(p, q, i) == MisalignedBelow(p, q, i - 1) + if p[i - 1] != q[i - 1] then {i - 1} else {};
    }
  }
}
