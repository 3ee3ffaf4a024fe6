/**
 Stripe placements and the merge cost (src/stripe.cc).

 A narrow stripe has `k` data blocks and `m` parity blocks, each on its own node.  Merging two narrow
 stripes keeps their `2k` data blocks and turns every pair of parity blocks into one; the cost is the
 number of blocks that have to travel so that the wide stripe can sit on `2k + m` nodes.
 */
module Stripes {

  datatype Params = Params(nodeNum: nat, k: nat, m: nat)

  /** The placement half of a stripe: the node of each data block and of each parity block. */
  datatype Dist = Dist(data: seq<nat>, parity: seq<nat>)

  ghost predicate Distinct(s: seq<nat>) {
    forall i, j :: 0 <= i < j < |s| ==> s[i] != s[j]
  }

  ghost predicate InRange(c: Params, d: Dist) {
    && |d.data| == c.k && |d.parity| == c.m
    && (forall i :: 0 <= i < c.k ==> d.data[i] < c.nodeNum)
    && (forall i :: 0 <= i < c.m ==> d.parity[i] < c.nodeNum)
  }

  /** What `generate_random_distributions` produces: `k + m` different nodes. */
  ghost predicate WellPlaced(c: Params, d: Dist) {
    InRange(c, d) && Distinct(d.data + d.parity)
  }

  ghost predicate SameShape(a: Dist, b: Dist) {
    |a.data| == |b.data| && |a.parity| == |b.parity|
  }

  // -------------------------------------------------------------------------------------------
  // What the cost means
  // -------------------------------------------------------------------------------------------

  function SetOf(s: seq<nat>): set<nat> {
    set x | x in s
  }

  /** Where the merged parity block `i` goes when the nodes `occ` are taken: it stays put when the
      two blocks are aligned, else it goes to the first stripe's node unless that one is taken. */
  function Dest(a: Dist, b: Dist, i: nat, occ: set<nat>): nat
    requires i < |a.parity| == |b.parity|
  {
    if a.parity[i] == b.parity[i] || a.parity[i] !in occ then a.parity[i] else b.parity[i]
  }

  /** The nodes that hold a block of the wide stripe once the first `i` parity blocks are placed. */
  function Occupied(a: Dist, b: Dist, i: nat): set<nat>
    requires i <= |a.parity| == |b.parity|
  {
    if i == 0 then SetOf(a.data) + SetOf(b.data)
    else
      var occ := Occupied(a, b, i - 1);
      occ + {Dest(a, b, i - 1, occ)}
  }

  /** The number of misaligned parity blocks among the first `i`. */
  function Mismatches(p: seq<nat>, q: seq<nat>, i: nat): nat
    requires i <= |p| == |q|
  {
    if i == 0 then 0
    else Mismatches(p, q, i - 1) + if p[i - 1] == q[i - 1] then 0 else 1
  }

  /** The blocks that find their node already taken: `2k + m` blocks on fewer than `2k + m` nodes. */
  function Overflow(a: Dist, b: Dist): int
    requires SameShape(a, b)
  {
    2 * |a.data| + |a.parity| - |Occupied(a, b, |a.parity|)|
  }

  /** Misaligned parity blocks plus overflowing blocks. */
  function Cost(a: Dist, b: Dist): (cost: nat)
    requires SameShape(a, b)
  {
    OverflowNatural(a, b);
    Mismatches(a.parity, b.parity, |a.parity|) + Overflow(a, b)
  }

  lemma SetOfNext(s: seq<nat>, i: nat)
    requires i < |s|
    ensures SetOf(s[..i + 1]) == SetOf(s[..i]) + {s[i]}
  {
    assert s[..i + 1] == s[..i] + [s[i]];
  }

  lemma {:induction false} SetOfSmall(s: seq<nat>)
    ensures |SetOf(s)| <= |s|
  {
    if |s| > 0 {
      var r := s[..|s| - 1];
      SetOfSmall(r);
      assert SetOf(s) == SetOf(r) + {s[|s| - 1]};
    }
  }

  lemma {:induction false} OccupiedSmall(a: Dist, b: Dist, i: nat)
    requires i <= |a.parity| == |b.parity|
    ensures |Occupied(a, b, i)| <= |a.data| + |b.data| + i
  {
    if i == 0 {
      SetOfSmall(a.data);
      SetOfSmall(b.data);
      UnionSmall(SetOf(a.data), SetOf(b.data));
    } else {
      OccupiedSmall(a, b, i - 1);
    }
  }

  lemma UnionSmall(s: set<nat>, t: set<nat>)
    ensures |s + t| <= |s| + |t|
  {
  }

  lemma OverflowNatural(a: Dist, b: Dist)
    requires SameShape(a, b)
    ensures Overflow(a, b) >= 0
  {
    OccupiedSmall(a, b, |a.parity|);
  }

  // -------------------------------------------------------------------------------------------
  // compute_cost
  // -------------------------------------------------------------------------------------------

  /** `flag[x]` is set exactly for the nodes of `occ`. */
  ghost predicate Flags(flag: array<bool>, occ: set<nat>)
    reads flag
  {
    forall x: nat :: x < flag.Length ==> (flag[x] <==> x in occ)
  }

  /** Marks a node; says whether it was taken before. */
  method Place(flag: array<bool>, node: nat, ghost occ: set<nat>) returns (extra: nat, ghost occ': set<nat>)
    requires node < flag.Length && Flags(flag, occ)
    modifies flag
    ensures occ' == occ + {node} && Flags(flag, occ')
    ensures extra == 1 + |occ| - |occ'|
  {
    occ' := occ + {node};
    if flag[node] {
      extra := 1;
      assert occ' == occ;
    } else {
      extra := 0;
      flag[node] := true;
    }
  }

  /** The first loop of `compute_cost`: the data blocks that find their node taken. */
  method CountDataOverflow(c: Params, a: Dist, b: Dist, flag: array<bool>) returns (cost: nat, ghost occ: set<nat>)
    requires |a.data| == |b.data| == c.k && |a.parity| == |b.parity|
    requires forall i :: 0 <= i < c.k ==> a.data[i] < flag.Length && b.data[i] < flag.Length
    requires Flags(flag, {})
    modifies flag
    ensures occ == Occupied(a, b, 0) && Flags(flag, occ)
    ensures cost + |occ| == 2 * c.k
  {
    occ, cost := {}, 0;
    for i := 0 to c.k
      invariant Flags(flag, occ)
      invariant occ == DataNodes(a, b, i)
      invariant cost + |occ| == 2 * i
    {
      var extraA, extraB;
      extraA, occ := Place(flag, a.data[i], occ);
      extraB, occ := Place(flag, b.data[i], occ);
      cost := cost + extraA + extraB;
      DataNodesNext(a, b, i);
    }
    assert a.data[..c.k] == a.data && b.data[..c.k] == b.data;
  }

  ghost function DataNodes(a: Dist, b: Dist, i: nat): set<nat>
    requires i <= |a.data| == |b.data|
  {
    SetOf(a.data[..i]) + SetOf(b.data[..i])
  }

  lemma DataNodesNext(a: Dist, b: Dist, i: nat)
    requires i < |a.data| == |b.data|
    ensures DataNodes(a, b, i + 1) == DataNodes(a, b, i) + {a.data[i]} + {b.data[i]}
  {
    SetOfNext(a.data, i);
    SetOfNext(b.data, i);
  }

  /** The body of the second loop: a misaligned parity block costs one transfer, and one more when
      its destination is taken. */
  method PlaceParity(a: Dist, b: Dist, i: nat, flag: array<bool>, ghost occ: set<nat>)
    returns (extra: nat, ghost occ': set<nat>)
    requires i < |a.parity| == |b.parity|
    requires a.parity[i] < flag.Length && b.parity[i] < flag.Length && Flags(flag, occ)
    modifies flag
    ensures Flags(flag, occ')
    ensures a.parity[i] !in occ ==> occ' == occ + {a.parity[i]}
    ensures a.parity[i] in occ ==> occ' == occ + {b.parity[i]}
    ensures extra == (if a.parity[i] == b.parity[i] then 0 else 1) + 1 + |occ| - |occ'|
  {
    var misaligned := 0;
    var parityDest := a.parity[i];
    if a.parity[i] != b.parity[i] {
      misaligned := 1;
      parityDest := if flag[a.parity[i]] then b.parity[i] else a.parity[i];
    }
    extra, occ' := Place(flag, parityDest, occ);
    extra := extra + misaligned;
  }

  lemma OccupiedNext(a: Dist, b: Dist, i: nat, occ: set<nat>)
    requires i < |a.parity| == |b.parity| && occ == Occupied(a, b, i)
    ensures Occupied(a, b, i + 1) == occ + {Dest(a, b, i, occ)}
    ensures Mismatches(a.parity, b.parity, i + 1)
         == Mismatches(a.parity, b.parity, i) + if a.parity[i] == b.parity[i] then 0 else 1
  {
  }

  /** The second loop: misaligned parity blocks, and merged parity blocks whose node is taken. */
  method CountParityCost(c: Params, a: Dist, b: Dist, flag: array<bool>, ghost data: set<nat>)
    returns (cost: nat, ghost occ: set<nat>)
    requires |a.parity| == |b.parity| == c.m
    requires forall i :: 0 <= i < c.m ==> a.parity[i] < flag.Length && b.parity[i] < flag.Length
    requires data == Occupied(a, b, 0) && Flags(flag, data)
    modifies flag
    ensures occ == Occupied(a, b, c.m)
    ensures cost + |occ| == |data| + c.m + Mismatches(a.parity, b.parity, c.m)
  {
    occ, cost := data, 0;
    for i := 0 to c.m
      invariant Flags(flag, occ) && occ == Occupied(a, b, i)
      invariant cost + |occ| == |data| + i + Mismatches(a.parity, b.parity, i)
    {
      var extra;
      ghost var before := occ;
      extra, occ := PlaceParity(a, b, i, flag, occ);
      cost := cost + extra;
      OccupiedNext(a, b, i, before);
    }
  }

  /** `Stripe::compute_cost`.  The counter only grows, and for well-placed stripes it ends at most at
      `k + m` (`CostBounds`), so for `k + m < 256` the program's 8-bit counter never wraps. */
  method ComputeCost(c: Params, a: Dist, b: Dist) returns (cost: nat)
    requires InRange(c, a) && InRange(c, b)
    ensures cost == Cost(a, b)
  {
    var flag := new bool[c.nodeNum](_ => false);
    ghost var occ;
    cost, occ := CountDataOverflow(c, a, b, flag);
    var parityCost;
    parityCost, occ := CountParityCost(c, a, b, flag, occ);
    cost := cost + parityCost;
  }

  // -------------------------------------------------------------------------------------------
  // Properties of the cost
  // -------------------------------------------------------------------------------------------

  lemma {:induction false} DistinctSize(s: seq<nat>)
    requires Distinct(s)
    ensures |SetOf(s)| == |s|
  {
    if |s| > 0 {
      var r, x := s[..|s| - 1], s[|s| - 1];
      DistinctSize(r);
      assert SetOf(s) == SetOf(r) + {x};
      assert x !in SetOf(r);
    }
  }

  /** Every node of the first stripe ends up holding a block. */
  lemma {:induction false} FirstStripeCovered(a: Dist, b: Dist, i: nat)
    requires i <= |a.parity| == |b.parity|
    ensures SetOf(a.data) + SetOf(a.parity[..i]) <= Occupied(a, b, i)
    ensures SetOf(b.data) <= Occupied(a, b, i)
  {
    if i > 0 {
      FirstStripeCovered(a, b, i - 1);
      assert a.parity[..i] == a.parity[..i - 1] + [a.parity[i - 1]];
    }
  }

  lemma {:induction false} MismatchesBound(p: seq<nat>, q: seq<nat>, i: nat)
    requires i <= |p| == |q|
    ensures Mismatches(p, q, i) <= i
    ensures Mismatches(p, q, i) == 0 <==> p[..i] == q[..i]
  {
    if i > 0 {
      MismatchesBound(p, q, i - 1);
      assert p[..i] == p[..i - 1] + [p[i - 1]] && q[..i] == q[..i - 1] + [q[i - 1]];
    }
  }

  /** The cost lies between the misaligned parities and `k` more, hence within the `k + m + 1` cells
      of the cost-indexed tables. */
  lemma CostBounds(c: Params, a: Dist, b: Dist)
    requires WellPlaced(c, a) && WellPlaced(c, b)
    ensures Mismatches(a.parity, b.parity, c.m) <= Cost(a, b) <= c.k + Mismatches(a.parity, b.parity, c.m)
    ensures Cost(a, b) <= c.k + c.m
  {
    OverflowNatural(a, b);
    MismatchesBound(a.parity, b.parity, c.m);
    FirstStripeCovered(a, b, c.m);
    assert a.parity[..c.m] == a.parity;
    var occ := Occupied(a, b, c.m);
    assert SetOf(a.data + a.parity) <= occ;
    DistinctSize(a.data + a.parity);
    SubsetSmaller(SetOf(a.data + a.parity), occ);
  }

  lemma SubsetSmaller(s: set<nat>, t: set<nat>)
    requires s <= t
    ensures |s| <= |t|
  {
    assert t == s + (t - s);
  }

  /** Two stripes merge for free exactly when their parity blocks are aligned and their data blocks
      share no node. */
  lemma FreeMergeIff(c: Params, a: Dist, b: Dist)
    requires WellPlaced(c, a) && WellPlaced(c, b)
    ensures Cost(a, b) == 0 <==> a.parity == b.parity && SetOf(a.data) !! SetOf(b.data)
  {
    OverflowNatural(a, b);
    MismatchesBound(a.parity, b.parity, c.m);
    assert a.parity[..c.m] == a.parity && b.parity[..c.m] == b.parity;
    if a.parity == b.parity {
      AlignedOccupied(a, b, c.m);
      var A, B, P := SetOf(a.data), SetOf(b.data), SetOf(a.parity);
      assert A !! P by { PartsDisjoint(a); }
      assert B !! P by { PartsDisjoint(b); }
      DistinctPart(c, a);
      DistinctPart(c, b);
      assert Occupied(a, b, c.m) == A + B + P;
      assert |A + B| == |A| + |B| - |A * B|;
      assert (A + B) !! P;
      assert |A + B + P| == |A + B| + |P|;
      assert A * B == {} <==> |A * B| == 0;
    }
  }

  lemma {:induction false} AlignedOccupied(a: Dist, b: Dist, i: nat)
    requires i <= |a.parity| && a.parity == b.parity
    ensures Occupied(a, b, i) == SetOf(a.data) + SetOf(b.data) + SetOf(a.parity[..i])
  {
    if i > 0 {
      AlignedOccupied(a, b, i - 1);
      assert a.parity[..i] == a.parity[..i - 1] + [a.parity[i - 1]];
    }
  }

  lemma PartsDisjoint(d: Dist)
    requires Distinct(d.data + d.parity)
    ensures SetOf(d.data) !! SetOf(d.parity)
  {
    var all := d.data + d.parity;
    forall i, j | 0 <= i < |d.data| && 0 <= j < |d.parity| ensures d.data[i] != d.parity[j] {
      assert all[i] != all[|d.data| + j];
    }
  }

  lemma DistinctPart(c: Params, d: Dist)
    requires WellPlaced(c, d)
    ensures |SetOf(d.data)| == c.k && |SetOf(d.parity)| == c.m
  {
    var all := d.data + d.parity;
    assert d.data == all[..c.k] && d.parity == all[c.k..];
    assert Distinct(d.data);
    forall i, j | 0 <= i < j < c.m ensures d.parity[i] != d.parity[j] {
      assert all[c.k + i] != all[c.k + j];
    }
    DistinctSize(d.data);
    DistinctSize(d.parity);
  }

  /** The cost depends on the order of the two stripes: with parities `(0, 1)` against `(2, 0)` and
      node 1 among the second stripe's data, the order decides whether node 0 stays free. */
  lemma CostIsNotSymmetric()
    ensures exists c, a, b :: WellPlaced(c, a) && WellPlaced(c, b) && Cost(a, b) == 3 && Cost(b, a) == 2
  {
    var c, a, b := Params(8, 1, 2), Dist([3], [0, 1]), Dist([1], [2, 0]);
    SmallStripe(a, 3, 0, 1);
    SmallStripe(b, 1, 2, 0);
    OneWay(a, b);
    OtherWay(b, a);
    assert WellPlaced(c, a) && WellPlaced(c, b);
  }

  lemma SmallStripe(d: Dist, x: nat, y: nat, z: nat)
    requires d == Dist([x], [y, z]) && x < 8 && y < 8 && z < 8 && x != y && x != z && y != z
    ensures WellPlaced(Params(8, 1, 2), d)
  {
  }

  lemma OneWay(a: Dist, b: Dist)
    requires a == Dist([3], [0, 1]) && b == Dist([1], [2, 0])
    ensures Cost(a, b) == 3
  {
    CostOfTwo(a, b, {3, 1}, {3, 1, 0}, {3, 1, 0});
  }

  lemma OtherWay(b: Dist, a: Dist)
    requires a == Dist([3], [0, 1]) && b == Dist([1], [2, 0])
    ensures Cost(b, a) == 2
  {
    CostOfTwo(b, a, {3, 1}, {3, 1, 2}, {3, 1, 2, 0});
  }

  lemma CostOfTwo(a: Dist, b: Dist, s: set<nat>, t: set<nat>, u: set<nat>)
    requires |a.data| == |b.data| == 1 && |a.parity| == |b.parity| == 2
    requires a.parity[0] != b.parity[0] && a.parity[1] != b.parity[1]
    requires s == SetOf(a.data) + SetOf(b.data)
    requires t == s + {Dest(a, b, 0, s)} && u == t + {Dest(a, b, 1, t)}
    ensures Cost(a, b) == 6 - |u|
  {
    OccupiedTwo(a, b, s, t, u);
    MismatchesTwo(a, b);
  }

  lemma OccupiedTwo(a: Dist, b: Dist, s: set<nat>, t: set<nat>, u: set<nat>)
    requires |a.parity| == |b.parity| == 2 && s == Occupied(a, b, 0)
    requires t == s + {Dest(a, b, 0, s)} && u == t + {Dest(a, b, 1, t)}
    ensures Occupied(a, b, 2) == u
  {
  }

  lemma MismatchesTwo(a: Dist, b: Dist)
    requires |a.parity| == |b.parity| == 2 && a.parity[0] != b.parity[0] && a.parity[1] != b.parity[1]
    ensures Mismatches(a.parity, b.parity, 2) == 2
  {
    assert Mismatches(a.parity, b.parity, 1) == 1;
  }

  // -------------------------------------------------------------------------------------------
  // The cost of a pair of stripe indices
  // -------------------------------------------------------------------------------------------

  ghost predicate AllPlaced(c: Params, ds: seq<Dist>) {
    forall i :: 0 <= i < |ds| ==> WellPlaced(c, ds[i])
  }

  /** `get_cost` puts the smaller index first. */
  function PairCost(c: Params, ds: seq<Dist>, i: nat, j: nat): nat
    requires i < |ds| && j < |ds| && SameShape(ds[i], ds[j])
  {
    if i > j then Cost(ds[j], ds[i]) else Cost(ds[i], ds[j])
  }
}
