/**
 The transfer plan for one pair of stripes (src/matching_generator.cc, get_one_scheme).

 The plan first sends one parity block of every misaligned pair to its partner, and then moves the
 blocks that share a node to free nodes.  The program takes the target of such a move from the front
 of the list of free nodes but removes an entry from its back; the model keeps that.  A relocated
 block has coefficient zero, parity block `i` has coefficient `i + 1`.
 */
module Transfers {
  import opened Stripes
  import opened Migration

  // -------------------------------------------------------------------------------------------
  // The merged stripe before relocation
  // -------------------------------------------------------------------------------------------

  /** The nodes of the `2k` data blocks and of the first `i` merged parity blocks. */
  function BlockNodes(a: Dist, b: Dist, i: nat): (s: seq<nat>)
    requires i <= |a.parity| == |b.parity|
    ensures |s| == |a.data| + |b.data| + i
  {
    if i == 0 then a.data + b.data
    else BlockNodes(a, b, i - 1) + [Dest(a, b, i - 1, Occupied(a, b, i - 1))]
  }

  /** The transfers for the first `i` parity blocks: the block that is not at the destination travels
      to the one that is. */
  function ParityTransfers(a: Dist, b: Dist, i: nat): (s: seq<Transfer>)
    requires i <= |a.parity| == |b.parity|
    ensures |s| == Mismatches(a.parity, b.parity, i)
  {
    if i == 0 then []
    else
      var p, q := a.parity[i - 1], b.parity[i - 1];
      var dest := Dest(a, b, i - 1, Occupied(a, b, i - 1));
      ParityTransfers(a, b, i - 1)
      + if p == q then [] else [Transfer((if dest == p then q else p) + 1, dest + 1, i)]
  }

  lemma {:induction false} BlockNodesOccupied(a: Dist, b: Dist, i: nat)
    requires i <= |a.parity| == |b.parity|
    ensures SetOf(BlockNodes(a, b, i)) == Occupied(a, b, i)
  {
    if i == 0 {
      assert SetOf(a.data + b.data) == SetOf(a.data) + SetOf(b.data);
    } else {
      BlockNodesOccupied(a, b, i - 1);
    }
  }

  ghost predicate AllBelow(s: seq<nat>, n: nat) {
    forall i :: 0 <= i < |s| ==> s[i] < n
  }

  lemma {:induction false} BlockNodesInRange(c: Params, a: Dist, b: Dist, i: nat)
    requires InRange(c, a) && InRange(c, b) && i <= c.m
    ensures AllBelow(BlockNodes(a, b, i), c.nodeNum)
  {
    if i > 0 {
      BlockNodesInRange(c, a, b, i - 1);
    }
  }

  // -------------------------------------------------------------------------------------------
  // Loads: how many blocks each node holds
  // -------------------------------------------------------------------------------------------

  function Count(s: seq<nat>, x: nat): nat {
    if s == [] then 0
    else Count(s[..|s| - 1], x) + if s[|s| - 1] == x then 1 else 0
  }

  function Load(nodes: seq<nat>, n: nat): (host: seq<nat>)
    ensures |host| == n && forall x :: 0 <= x < n ==> host[x] == Count(nodes, x)
  {
    seq(n, x requires 0 <= x < n => Count(nodes, x))
  }

  lemma CountPush(s: seq<nat>, y: nat, x: nat)
    ensures Count(s + [y], x) == Count(s, x) + if x == y then 1 else 0
  {
  }

  lemma {:induction false} CountConcat(s: seq<nat>, t: seq<nat>, x: nat)
    ensures Count(s + t, x) == Count(s, x) + Count(t, x)
    decreases |t|
  {
    if t == [] {
      assert s + t == s;
    } else {
      var init, last := t[..|t| - 1], t[|t| - 1];
      CountConcat(s, init, x);
      CountPush(s + init, last, x);
      assert s + t == (s + init) + [last];
    }
  }

  lemma {:induction false} CountMember(s: seq<nat>, x: nat)
    ensures Count(s, x) > 0 <==> x in s
  {
    if s != [] {
      CountMember(s[..|s| - 1], x);
      assert s == s[..|s| - 1] + [s[|s| - 1]];
    }
  }

  // -------------------------------------------------------------------------------------------
  // Overfull and free nodes
  // -------------------------------------------------------------------------------------------

  function Repeat(x: nat, k: nat): (s: seq<nat>)
    ensures |s| == k
  {
    if k == 0 then [] else Repeat(x, k - 1) + [x]
  }

  lemma {:induction false} RepeatMembers(x: nat, k: nat, i: nat)
    requires i < k
    ensures Repeat(x, k)[i] == x
  {
    if i < k - 1 {
      RepeatMembers(x, k - 1, i);
    }
  }

  lemma {:induction false} RepeatCount(x: nat, k: nat, y: nat)
    ensures Count(Repeat(x, k), y) == if x == y then k else 0
  {
    if k > 0 {
      RepeatCount(x, k - 1, y);
      CountPush(Repeat(x, k - 1), x, y);
    }
  }

  /** The blocks beyond a node's first. */
  function Extra(blocks: nat): nat {
    if blocks > 1 then blocks - 1 else 0
  }

  /** The sources of the relocations: every node below `n`, once for each block beyond its first. */
  function Surplus(host: seq<nat>, n: nat): seq<nat>
    requires n <= |host|
  {
    if n == 0 then []
    else Surplus(host, n - 1) + Repeat(n - 1, Extra(host[n - 1]))
  }

  /** The nodes below `n` without a block. */
  function FreeNodes(host: seq<nat>, n: nat): seq<nat>
    requires n <= |host|
  {
    if n == 0 then []
    else FreeNodes(host, n - 1) + if host[n - 1] == 0 then [n - 1] else []
  }

  lemma {:induction false} SurplusCount(host: seq<nat>, n: nat, x: nat)
    requires n <= |host|
    ensures Count(Surplus(host, n), x) == if x < n then Extra(host[x]) else 0
  {
    if n > 0 {
      SurplusCount(host, n - 1, x);
      RepeatCount(n - 1, Extra(host[n - 1]), x);
      CountConcat(Surplus(host, n - 1), Repeat(n - 1, Extra(host[n - 1])), x);
    }
  }

  lemma {:induction false} FreeNodesAreFree(host: seq<nat>, n: nat)
    requires n <= |host|
    ensures forall x :: x in FreeNodes(host, n) ==> x < n && host[x] == 0
  {
    if n > 0 {
      FreeNodesAreFree(host, n - 1);
    }
  }

  function SumUpTo(host: seq<nat>, n: nat): nat
    requires n <= |host|
  {
    if n == 0 then 0 else SumUpTo(host, n - 1) + host[n - 1]
  }

  ghost function Holding(host: seq<nat>, n: nat): set<nat>
    requires n <= |host|
  {
    set x: nat | x < n && host[x] > 0
  }

  lemma {:induction false} SurplusAndFree(host: seq<nat>, n: nat)
    requires n <= |host|
    ensures |Surplus(host, n)| == SumUpTo(host, n) - |Holding(host, n)|
    ensures |FreeNodes(host, n)| == n - |Holding(host, n)|
  {
    if n == 0 {
      assert Holding(host, 0) == {};
    } else {
      SurplusAndFree(host, n - 1);
      if host[n - 1] > 0 {
        assert Holding(host, n) == Holding(host, n - 1) + {n - 1};
      } else {
        assert Holding(host, n) == Holding(host, n - 1);
      }
    }
  }

  /** One block more on node `y`. */
  lemma {:induction false} SumBump(host: seq<nat>, host': seq<nat>, y: nat, n: nat)
    requires y < |host| == |host'| && n <= |host| && host' == host[y := host[y] + 1]
    ensures SumUpTo(host', n) == SumUpTo(host, n) + if y < n then 1 else 0
  {
    if n > 0 {
      SumBump(host, host', y, n - 1);
    }
  }

  lemma {:induction false} SumZero(host: seq<nat>, n: nat)
    requires n <= |host| && forall i :: 0 <= i < n ==> host[i] == 0
    ensures SumUpTo(host, n) == 0
  {
    if n > 0 {
      SumZero(host, n - 1);
    }
  }

  /** The loads add up to the number of blocks. */
  lemma {:induction false} LoadSum(nodes: seq<nat>, n: nat)
    requires AllBelow(nodes, n)
    ensures SumUpTo(Load(nodes, n), n) == |nodes|
    decreases |nodes|
  {
    if nodes == [] {
      SumZero(Load(nodes, n), n);
    } else {
      var init, y := nodes[..|nodes| - 1], nodes[|nodes| - 1];
      LoadSum(init, n);
      assert Load(nodes, n) == Load(init, n)[y := Load(init, n)[y] + 1];
      SumBump(Load(init, n), Load(nodes, n), y, n);
    }
  }

  lemma LoadHolding(nodes: seq<nat>, n: nat)
    requires AllBelow(nodes, n)
    ensures Holding(Load(nodes, n), n) == SetOf(nodes)
  {
    forall x: nat ensures x in Holding(Load(nodes, n), n) <==> x in SetOf(nodes) {
      CountMember(nodes, x);
    }
  }

  /** The relocated blocks are exactly the overflow of the cost, and with `nodeNum >= 2k + m` there are
      at least as many free nodes. */
  lemma RelocationsMatchCost(c: Params, a: Dist, b: Dist)
    requires InRange(c, a) && InRange(c, b)
    ensures var host := Load(BlockNodes(a, b, c.m), c.nodeNum);
            && |Surplus(host, c.nodeNum)| == Overflow(a, b)
            && (c.nodeNum >= 2 * c.k + c.m ==> |FreeNodes(host, c.nodeNum)| >= Overflow(a, b))
  {
    var nodes := BlockNodes(a, b, c.m);
    BlockNodesInRange(c, a, b, c.m);
    SurplusAndFree(Load(nodes, c.nodeNum), c.nodeNum);
    LoadSum(nodes, c.nodeNum);
    LoadHolding(nodes, c.nodeNum);
    BlockNodesOccupied(a, b, c.m);
  }

  // -------------------------------------------------------------------------------------------
  // The plan
  // -------------------------------------------------------------------------------------------

  /** Moves to one and the same node. */
  function MovesTo(sources: seq<nat>, target: nat): (s: seq<Transfer>)
    ensures |s| == |sources|
  {
    if sources == [] then []
    else MovesTo(sources[..|sources| - 1], target) + [Transfer(sources[|sources| - 1] + 1, target + 1, 0)]
  }

  /** The plan of a pair when `target` is the first free node after shuffling. */
  function PairPlan(c: Params, a: Dist, b: Dist, target: nat): seq<Transfer>
    requires InRange(c, a) && InRange(c, b)
  {
    ParityTransfers(a, b, c.m) + MovesTo(Surplus(Load(BlockNodes(a, b, c.m), c.nodeNum), c.nodeNum), target)
  }

  /** What travels for one parity position: nothing if it is aligned, else the first stripe's block if its
      node is taken, else the second's. */
  function ParityTransfer(p: nat, q: nat, taken: bool, i: nat): seq<Transfer> {
    if p == q then []
    else if taken then [Transfer(p + 1, q + 1, i + 1)]
    else [Transfer(q + 1, p + 1, i + 1)]
  }

  /** A target is only needed when blocks have to move, and then it is a node without a block. */
  ghost predicate GoodTarget(c: Params, a: Dist, b: Dist, target: nat)
    requires InRange(c, a) && InRange(c, b)
  {
    Overflow(a, b) > 0 ==> target < c.nodeNum && target !in Occupied(a, b, c.m)
  }

  /** A plan that `get_one_scheme` may yield for two stripes, in this order, for some outcome of the
      shuffle. */
  ghost predicate PlanFor(c: Params, a: Dist, b: Dist, plan: seq<Transfer>) {
    && InRange(c, a) && InRange(c, b)
    && exists target :: plan == PairPlan(c, a, b, target) && GoodTarget(c, a, b, target)
  }

  /** The plan of a pair has exactly as many transfers as the pair costs. */
  lemma PlanSizeIsCost(c: Params, a: Dist, b: Dist, target: nat)
    requires InRange(c, a) && InRange(c, b)
    ensures |PairPlan(c, a, b, target)| == Cost(a, b)
  {
    RelocationsMatchCost(c, a, b);
  }

  // -------------------------------------------------------------------------------------------
  // What the plan does to the blocks
  // -------------------------------------------------------------------------------------------

  /** Can the transfer be carried out with these loads? */
  predicate Feasible(load: seq<nat>, t: Transfer) {
    0 < t.source <= |load| && 0 < t.target <= |load| && t.source != t.target && load[t.source - 1] > 0
  }

  /** A transfer with coefficient zero moves a block; one with a coefficient merges the travelling
      parity block into its partner, so one block disappears. */
  function ApplyOne(load: seq<nat>, t: Transfer): (r: seq<nat>)
    requires Feasible(load, t)
    ensures |r| == |load|
  {
    var r := load[t.source - 1 := load[t.source - 1] - 1];
    if t.coefficient == 0 then r[t.target - 1 := r[t.target - 1] + 1] else r
  }

  datatype Result = Stuck | Loads(load: seq<nat>)

  /** Carries out the transfers in order; stuck if a source has no block to send. */
  function Apply(load: seq<nat>, plan: seq<Transfer>): (r: Result)
    ensures r.Loads? ==> |r.load| == |load|
  {
    if plan == [] then Loads(load)
    else
      var r := Apply(load, plan[..|plan| - 1]);
      if r.Loads? && Feasible(r.load, plan[|plan| - 1]) then Loads(ApplyOne(r.load, plan[|plan| - 1])) else Stuck
  }

  lemma ApplyLast(load: seq<nat>, plan: seq<Transfer>, t: Transfer)
    requires Apply(load, plan).Loads? && Feasible(Apply(load, plan).load, t)
    ensures Apply(load, plan + [t]) == Loads(ApplyOne(Apply(load, plan).load, t))
  {
  }

  lemma {:induction false} ApplyAppend(load: seq<nat>, plan: seq<Transfer>, more: seq<Transfer>)
    requires Apply(load, plan).Loads?
    ensures Apply(load, plan + more) == Apply(Apply(load, plan).load, more)
    decreases |more|
  {
    if more == [] {
      assert plan + more == plan;
    } else {
      var init := more[..|more| - 1];
      ApplyAppend(load, plan, init);
      assert (plan + more)[..|plan + more| - 1] == plan + init;
    }
  }

  /** The blocks before the plan: the data blocks, one block per aligned parity pair, and both blocks
      of every misaligned pair. */
  function StartNodes(a: Dist, b: Dist, i: nat): seq<nat>
    requires i <= |a.parity| == |b.parity|
  {
    if i == 0 then a.data + b.data
    else
      var p, q := a.parity[i - 1], b.parity[i - 1];
      StartNodes(a, b, i - 1) + if p == q then [p] else [p, q]
  }

  /** The loads of `nodes` and of further blocks `more`. */
  ghost predicate LoadIs(load: seq<nat>, nodes: seq<nat>, more: seq<nat>) {
    forall x :: 0 <= x < |load| ==> load[x] == Count(nodes, x) + Count(more, x)
  }

  /** The parity transfers leave one block per merged parity; other blocks stay where they are. */
  lemma {:induction false} ApplyParity(c: Params, a: Dist, b: Dist, i: nat, load: seq<nat>, more: seq<nat>)
    requires InRange(c, a) && InRange(c, b) && i <= c.m && |load| == c.nodeNum
    requires LoadIs(load, StartNodes(a, b, i), more)
    ensures Apply(load, ParityTransfers(a, b, i)).Loads?
    ensures LoadIs(Apply(load, ParityTransfers(a, b, i)).load, BlockNodes(a, b, i), more)
  {
    if i > 0 {
      var p, q := a.parity[i - 1], b.parity[i - 1];
      var here := if p == q then [p] else [p, q];
      forall x ensures 0 <= x < |load| ==> load[x] == Count(StartNodes(a, b, i - 1), x) + Count(here + more, x) {
        if 0 <= x < |load| {
          CountConcat(StartNodes(a, b, i - 1), here, x);
          CountConcat(here, more, x);
        }
      }
      ApplyParity(c, a, b, i - 1, load, here + more);
      ApplyParityStep(c, a, b, i, load, here, more);
    }
  }

  /** The block and the transfer that parity position `i` adds. */
  lemma ParityNext(a: Dist, b: Dist, i: nat, p: nat, q: nat) returns (dest: nat, src: nat)
    requires 0 < i <= |a.parity| == |b.parity| && p == a.parity[i - 1] && q == b.parity[i - 1]
    ensures (dest == p && src == q) || (dest == q && src == p)
    ensures BlockNodes(a, b, i) == BlockNodes(a, b, i - 1) + [dest]
    ensures ParityTransfers(a, b, i)
         == if p == q then ParityTransfers(a, b, i - 1)
            else ParityTransfers(a, b, i - 1) + [Transfer(src + 1, dest + 1, i)]
  {
    dest := Dest(a, b, i - 1, Occupied(a, b, i - 1));
    src := if dest == p then q else p;
    if p == q {
      assert ParityTransfers(a, b, i - 1) + [] == ParityTransfers(a, b, i - 1);
    }
  }

  lemma ApplyParityStep(c: Params, a: Dist, b: Dist, i: nat, load: seq<nat>, here: seq<nat>, more: seq<nat>)
    requires InRange(c, a) && InRange(c, b) && 0 < i <= c.m && |load| == c.nodeNum
    requires here == if a.parity[i - 1] == b.parity[i - 1] then [a.parity[i - 1]] else [a.parity[i - 1], b.parity[i - 1]]
    requires Apply(load, ParityTransfers(a, b, i - 1)).Loads?
    requires LoadIs(Apply(load, ParityTransfers(a, b, i - 1)).load, BlockNodes(a, b, i - 1), here + more)
    ensures Apply(load, ParityTransfers(a, b, i)).Loads?
    ensures LoadIs(Apply(load, ParityTransfers(a, b, i)).load, BlockNodes(a, b, i), more)
  {
    var p, q := a.parity[i - 1], b.parity[i - 1];
    var dest, src := ParityNext(a, b, i, p, q);
    MergeStep(load, ParityTransfers(a, b, i - 1), BlockNodes(a, b, i - 1), here, more, p, q, dest, src, i);
  }

  lemma MergeStep(load: seq<nat>, plan: seq<Transfer>, before: seq<nat>, here: seq<nat>, more: seq<nat>,
                  p: nat, q: nat, dest: nat, src: nat, i: nat)
    requires p < |load| && q < |load| && i > 0
    requires here == (if p == q then [p] else [p, q])
    requires (dest == p && src == q) || (dest == q && src == p)
    requires Apply(load, plan).Loads? && LoadIs(Apply(load, plan).load, before, here + more)
    ensures var plan' := if p == q then plan else plan + [Transfer(src + 1, dest + 1, i)];
            Apply(load, plan').Loads? && LoadIs(Apply(load, plan').load, before + [dest], more)
  {
    BeforeMerge(Apply(load, plan).load, before, here, more, p, q, dest, src);
    if p != q {
      MergeLoad(load, plan, before + [dest], more, src, dest, i);
    }
  }

  /** Before the merge, the travelling block is still on its node. */
  lemma BeforeMerge(mid: seq<nat>, before: seq<nat>, here: seq<nat>, more: seq<nat>, p: nat, q: nat, dest: nat, src: nat)
    requires here == (if p == q then [p] else [p, q])
    requires (dest == p && src == q) || (dest == q && src == p)
    requires LoadIs(mid, before, here + more)
    ensures forall x :: 0 <= x < |mid| ==>
              mid[x] == Count(before + [dest], x) + Count(more, x) + if p != q && x == src then 1 else 0
  {
    forall x | 0 <= x < |mid|
      ensures mid[x] == Count(before + [dest], x) + Count(more, x) + if p != q && x == src then 1 else 0
    {
      CountHere(p, q, dest, here, more, x);
      CountPush(before, dest, x);
    }
  }

  lemma MergeLoad(load: seq<nat>, plan: seq<Transfer>, after: seq<nat>, more: seq<nat>, src: nat, dest: nat, i: nat)
    requires Apply(load, plan).Loads? && src < |load| && dest < |load| && src != dest && i > 0
    requires forall x :: 0 <= x < |load| ==>
               Apply(load, plan).load[x] == Count(after, x) + Count(more, x) + if x == src then 1 else 0
    ensures Apply(load, plan + [Transfer(src + 1, dest + 1, i)]).Loads?
    ensures LoadIs(Apply(load, plan + [Transfer(src + 1, dest + 1, i)]).load, after, more)
  {
    ApplyLast(load, plan, Transfer(src + 1, dest + 1, i));
  }

  lemma CountHere(p: nat, q: nat, dest: nat, here: seq<nat>, more: seq<nat>, x: nat)
    requires here == (if p == q then [p] else [p, q]) && (dest == p || dest == q)
    ensures Count(here + more, x)
         == Count(more, x) + (if x == dest then 1 else 0) + if p != q && x != dest && (x == p || x == q) then 1 else 0
  {
    CountConcat(here, more, x);
    CountPush([], p, x);
    CountPush([p], q, x);
    assert [] + [p] == [p] && [p] + [q] == [p, q];
  }

  // -------------------------------------------------------------------------------------------
  // get_one_scheme
  // -------------------------------------------------------------------------------------------

  /** `host_blocks_num` after the data loop. */
  method CountData(c: Params, a: Dist, b: Dist) returns (host: seq<nat>)
    requires InRange(c, a) && InRange(c, b)
    ensures host == Load(BlockNodes(a, b, 0), c.nodeNum)
  {
    host := seq(c.nodeNum, _ => 0);
    for i := 0 to c.k
      invariant |host| == c.nodeNum
      invariant forall x :: 0 <= x < |host| ==> host[x] == Count(a.data[..i], x) + Count(b.data[..i], x)
    {
      assert a.data[..i + 1] == a.data[..i] + [a.data[i]] && b.data[..i + 1] == b.data[..i] + [b.data[i]];
      ghost var before := host;
      host := host[a.data[i] := host[a.data[i]] + 1];
      host := host[b.data[i] := host[b.data[i]] + 1];
      forall x | 0 <= x < |host|
        ensures host[x] == Count(a.data[..i + 1], x) + Count(b.data[..i + 1], x)
      {
        CountPush(a.data[..i], a.data[i], x);
        CountPush(b.data[..i], b.data[i], x);
      }
    }
    assert a.data[..c.k] == a.data && b.data[..c.k] == b.data;
    forall x | 0 <= x < |host| ensures host[x] == Count(a.data + b.data, x) {
      CountConcat(a.data, b.data, x);
    }
  }

  lemma LoadPush(nodes: seq<nat>, y: nat, n: nat)
    requires y < n
    ensures Load(nodes + [y], n) == Load(nodes, n)[y := Load(nodes, n)[y] + 1]
  {
  }

  lemma HostTellsOccupied(c: Params, a: Dist, b: Dist, i: nat, x: nat)
    requires InRange(c, a) && InRange(c, b) && i <= c.m && x < c.nodeNum
    ensures Load(BlockNodes(a, b, i), c.nodeNum)[x] > 0 <==> x in Occupied(a, b, i)
  {
    CountMember(BlockNodes(a, b, i), x);
    BlockNodesOccupied(a, b, i);
    assert x in SetOf(BlockNodes(a, b, i)) <==> x in BlockNodes(a, b, i);
  }

  /** The body of the parity loop: it makes the same choice as `compute_cost`. */
  method PlaceParity(c: Params, a: Dist, b: Dist, i: nat, host: seq<nat>) returns (parityDest: nat, plan: seq<Transfer>)
    requires InRange(c, a) && InRange(c, b) && i < c.m
    requires host == Load(BlockNodes(a, b, i), c.nodeNum)
    ensures parityDest == if host[a.parity[i]] == 0 then a.parity[i] else b.parity[i]
    ensures plan == ParityTransfer(a.parity[i], b.parity[i], host[a.parity[i]] > 0, i)
    ensures parityDest == Dest(a, b, i, Occupied(a, b, i)) && parityDest < c.nodeNum
    ensures ParityTransfers(a, b, i + 1) == ParityTransfers(a, b, i) + plan
  {
    var p, q := a.parity[i], b.parity[i];
    HostTellsOccupied(c, a, b, i, p);
    plan := [];
    if p == q {
      parityDest := p;
    } else if host[p] == 0 {
      parityDest := p;
      plan := [Transfer(q + 1, parityDest + 1, i + 1)];
    } else {
      parityDest := q;
      plan := [Transfer(p + 1, parityDest + 1, i + 1)];
    }
  }

  /** The parity loop. */
  method PlaceParities(c: Params, a: Dist, b: Dist, host0: seq<nat>) returns (host: seq<nat>, plan: seq<Transfer>)
    requires InRange(c, a) && InRange(c, b) && host0 == Load(BlockNodes(a, b, 0), c.nodeNum)
    ensures host == Load(BlockNodes(a, b, c.m), c.nodeNum)
    ensures plan == ParityTransfers(a, b, c.m)
  {
    host, plan := host0, [];
    for i := 0 to c.m
      invariant host == Load(BlockNodes(a, b, i), c.nodeNum)
      invariant plan == ParityTransfers(a, b, i)
    {
      var parityDest, more := PlaceParity(c, a, b, i, host);
      LoadPush(BlockNodes(a, b, i), parityDest, c.nodeNum);
      host := host[parityDest := host[parityDest] + 1];
      plan := plan + more;
    }
  }

  /** The surplus of a queue of overfull nodes. */
  function Drain(remain: seq<nat>, host: seq<nat>): seq<nat>
    requires AllBelow(remain, |host|)
  {
    if remain == [] then []
    else Repeat(remain[0], Extra(host[remain[0]])) + Drain(remain[1..], host)
  }

  lemma {:induction false} DrainPush(remain: seq<nat>, host: seq<nat>, i: nat)
    requires AllBelow(remain, |host|) && i < |host|
    ensures AllBelow(remain + [i], |host|)
    ensures Drain(remain + [i], host) == Drain(remain, host) + Repeat(i, Extra(host[i]))
    decreases |remain|
  {
    if remain == [] {
      assert remain + [i] == [i];
    } else {
      DrainPush(remain[1..], host, i);
      assert (remain + [i])[1..] == remain[1..] + [i];
    }
  }

  ghost predicate Overfull(remain: seq<nat>, host: seq<nat>) {
    AllBelow(remain, |host|) && forall s :: 0 <= s < |remain| ==> host[remain[s]] > 1
  }

  lemma OverfullPush(remain: seq<nat>, host: seq<nat>, i: nat)
    requires Overfull(remain, host) && i < |host| && host[i] > 1 && Drain(remain, host) == Surplus(host, i)
    ensures Overfull(remain + [i], host) && Drain(remain + [i], host) == Surplus(host, i + 1)
  {
    DrainPush(remain, host, i);
  }

  lemma SurplusSkip(host: seq<nat>, i: nat)
    requires i < |host| && host[i] <= 1
    ensures Surplus(host, i + 1) == Surplus(host, i)
  {
  }

  /** The nodes below `i` are sorted. */
  ghost predicate Sorted(host: seq<nat>, i: nat, remain: seq<nat>, available: seq<nat>)
    requires i <= |host|
  {
    && Overfull(remain, host) && Drain(remain, host) == Surplus(host, i)
    && available == FreeNodes(host, i)
  }

  lemma SortOne(host: seq<nat>, i: nat, remain: seq<nat>, available: seq<nat>)
    requires i < |host| && Sorted(host, i, remain, available)
    ensures host[i] > 1 ==> Sorted(host, i + 1, remain + [i], available)
    ensures host[i] == 1 ==> Sorted(host, i + 1, remain, available)
    ensures host[i] == 0 ==> Sorted(host, i + 1, remain, available + [i])
  {
    assert available + [] == available;
    if host[i] > 1 {
      OverfullPush(remain, host, i);
    } else {
      SurplusSkip(host, i);
    }
  }

  /** The loop that sorts nodes into overfull and free ones. */
  method Classify(host: seq<nat>) returns (remain: seq<nat>, available: seq<nat>)
    ensures Sorted(host, |host|, remain, available)
  {
    remain, available := [], [];
    for i := 0 to |host|
      invariant Sorted(host, i, remain, available)
    {
      SortOne(host, i, remain, available);
      if host[i] > 1 {
        remain := remain + [i];
      } else if host[i] == 0 {
        available := available + [i];
      }
    }
  }

  /** `std::shuffle`: some permutation. */
  method Shuffle(s: seq<nat>) returns (t: seq<nat>)
    ensures multiset(t) == multiset(s)
  {
    assert multiset(s) == multiset(s);
    t :| multiset(t) == multiset(s);
  }

  lemma {:induction false} MovesAppend(s: seq<nat>, t: seq<nat>, target: nat)
    ensures MovesTo(s + t, target) == MovesTo(s, target) + MovesTo(t, target)
    decreases |t|
  {
    if t == [] {
      assert s + t == s;
    } else {
      MovesAppend(s, t[..|t| - 1], target);
      assert (s + t)[..|s + t| - 1] == s + t[..|t| - 1];
    }
  }

  lemma MovesRepeat(i: nat, k: nat, target: nat)
    ensures MovesTo(Repeat(i, k + 1), target) == MovesTo(Repeat(i, k), target) + [Transfer(i + 1, target + 1, 0)]
  {
  }

  /** After `sent` moves the list has lost as many entries at its back, and its front is what it was. */
  ghost predicate Taken(i: nat, available: seq<nat>, sent: nat, rest: seq<nat>, plan: seq<Transfer>) {
    && sent <= |available| && available != []
    && rest == available[..|available| - sent] && plan == MovesTo(Repeat(i, sent), available[0])
  }

  lemma TakeOne(i: nat, available: seq<nat>, sent: nat, rest: seq<nat>, plan: seq<Transfer>)
    requires Taken(i, available, sent, rest, plan) && rest != []
    ensures Taken(i, available, sent + 1, rest[..|rest| - 1], plan + [Transfer(i + 1, rest[0] + 1, 0)])
  {
    MovesRepeat(i, sent, available[0]);
  }

  lemma TakeNone(i: nat, available: seq<nat>)
    requires available != []
    ensures Taken(i, available, 0, available, [])
  {
  }

  lemma NothingLeft(i: nat, available: seq<nat>, sent: nat, surplus: nat, plan: seq<Transfer>)
    requires sent <= surplus <= |available| && Taken(i, available, sent, [], plan)
    ensures sent == surplus
  {
  }

  /** The inner relocation loop: one transfer per surplus block of node `i`.  The target is the front
      of the list, the entry that is removed is at its back. */
  method MoveOff(i: nat, surplus: nat, available: seq<nat>) returns (rest: seq<nat>, plan: seq<Transfer>)
    requires surplus <= |available| && available != []
    ensures Taken(i, available, surplus, rest, plan)
  {
    rest, plan := available, [];
    var j := surplus;
    ghost var sent := 0;
    TakeNone(i, available);
    while rest != [] && j > 0
      invariant 0 <= j && 0 <= sent && j + sent == surplus && Taken(i, available, sent, rest, plan)
      decreases j
    {
      TakeOne(i, available, sent, rest, plan);
      var target := rest[0];
      rest := rest[..|rest| - 1];
      plan := plan + [Transfer(i + 1, target + 1, 0)];
      j, sent := j - 1, sent + 1;
    }
    if rest == [] {
      NothingLeft(i, available, sent, surplus, plan);
    }
  }

  /** The relocation loops. */
  method Relocate(host: seq<nat>, remain0: seq<nat>, shuffled: seq<nat>) returns (plan: seq<Transfer>)
    requires Overfull(remain0, host) && |Drain(remain0, host)| <= |shuffled|
    ensures plan == MovesTo(Drain(remain0, host), if shuffled == [] then 0 else shuffled[0])
  {
    plan := [];
    var remain, available := remain0, shuffled;
    ghost var target := if shuffled == [] then 0 else shuffled[0];
    ghost var done: seq<nat> := [];
    while remain != []
      invariant Overfull(remain, host) && done + Drain(remain, host) == Drain(remain0, host)
      invariant available <= shuffled && |available| == |shuffled| - |done|
      invariant plan == MovesTo(done, target)
      decreases |remain|
    {
      var i := remain[0];
      ghost var batch, later := Repeat(i, host[i] - 1), Drain(remain[1..], host);
      assert Drain(remain, host) == batch + later && |batch| == host[i] - 1 > 0;
      assert |done + (batch + later)| <= |shuffled|;
      remain := remain[1..];
      var more;
      available, more := MoveOff(i, host[i] - 1, available);
      MovesAppend(done, batch, target);
      plan := plan + more;
      assert done + (batch + later) == (done + batch) + later;
      done := done + batch;
    }
    assert done + [] == done;
  }

  lemma ShuffledFree(host: seq<nat>, shuffled: seq<nat>)
    requires multiset(shuffled) == multiset(FreeNodes(host, |host|)) && shuffled != []
    ensures shuffled[0] < |host| && host[shuffled[0]] == 0
  {
    FreeNodesAreFree(host, |host|);
    assert shuffled[0] in multiset(shuffled);
    assert shuffled[0] in FreeNodes(host, |host|);
  }

  lemma FreeNotOccupied(c: Params, a: Dist, b: Dist, x: nat)
    requires InRange(c, a) && InRange(c, b) && x < c.nodeNum
    requires Load(BlockNodes(a, b, c.m), c.nodeNum)[x] == 0
    ensures x !in Occupied(a, b, c.m)
  {
    BlockNodesOccupied(a, b, c.m);
    CountMember(BlockNodes(a, b, c.m), x);
  }

  /** `get_one_scheme` for the stripes `a` and `b`, in this order. */
  method GetOneScheme(c: Params, a: Dist, b: Dist) returns (plan: seq<Transfer>)
    requires InRange(c, a) && InRange(c, b) && c.nodeNum >= 2 * c.k + c.m
    ensures PlanFor(c, a, b, plan)
  {
    var host := CountData(c, a, b);
    host, plan := PlaceParities(c, a, b, host);
    var remain, available := Classify(host);
    RelocationsMatchCost(c, a, b);
    var shuffled := Shuffle(available);
    assert |shuffled| == |multiset(shuffled)| == |multiset(available)| == |available|;
    var moves := Relocate(host, remain, shuffled);
    plan := plan + moves;
    ghost var target := if shuffled == [] then 0 else shuffled[0];
    if shuffled != [] {
      ShuffledFree(host, shuffled);
      FreeNotOccupied(c, a, b, target);
    }
    assert plan == PairPlan(c, a, b, target) && GoodTarget(c, a, b, target);
  }
}
