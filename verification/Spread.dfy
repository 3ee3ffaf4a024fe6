/**
 What the relocations of a plan do to the blocks (src/matching_generator.cc, get_one_scheme, lines
 427-436): for which choices of targets the blocks of the wide stripe end up on different nodes, and what
 follows for the choice that the program makes.
 */
module Spread {
  import opened Stripes
  import opened Migration
  import opened Transfers

  /** One move for each source, to the target at the same place. */
  function MovesEach(sources: seq<nat>, targets: seq<nat>): (s: seq<Transfer>)
    requires |sources| == |targets|
    ensures |s| == |sources|
  {
    if sources == [] then []
    else
      var n := |sources| - 1;
      MovesEach(sources[..n], targets[..n]) + [Transfer(sources[n] + 1, targets[n] + 1, 0)]
  }

  /** The plan of a pair with the given targets. */
  function PlanWith(c: Params, a: Dist, b: Dist, targets: seq<nat>): seq<Transfer>
    requires InRange(c, a) && InRange(c, b) && |targets| == Overflow(a, b)
  {
    RelocationsMatchCost(c, a, b);
    ParityTransfers(a, b, c.m)
    + MovesEach(Surplus(Load(BlockNodes(a, b, c.m), c.nodeNum), c.nodeNum), targets)
  }

  /** The program's plan is the one that has the same target everywhere. */
  lemma ProgramsTargets(c: Params, a: Dist, b: Dist, target: nat)
    requires InRange(c, a) && InRange(c, b) && Overflow(a, b) >= 0
    ensures PlanWith(c, a, b, Repeat(target, Overflow(a, b))) == PairPlan(c, a, b, target)
  {
    RelocationsMatchCost(c, a, b);
    SameTarget(Surplus(Load(BlockNodes(a, b, c.m), c.nodeNum), c.nodeNum), target);
  }

  lemma {:induction false} SameTarget(sources: seq<nat>, target: nat)
    ensures MovesEach(sources, Repeat(target, |sources|)) == MovesTo(sources, target)
  {
    if sources != [] {
      var n := |sources| - 1;
      SameTarget(sources[..n], target);
      assert Repeat(target, |sources|)[..n] == Repeat(target, n);
    }
  }

  /** Only free nodes are targets. */
  ghost predicate FreeTargets(c: Params, a: Dist, b: Dist, targets: seq<nat>)
    requires InRange(c, a) && InRange(c, b)
  {
    forall i :: 0 <= i < |targets| ==> targets[i] < c.nodeNum && targets[i] !in Occupied(a, b, c.m)
  }

  /** Every source has its blocks, and no target is a source. */
  ghost predicate Movable(load: seq<nat>, sources: seq<nat>, targets: seq<nat>) {
    && (forall x: nat :: Count(sources, x) <= if x < |load| then load[x] else 0)
    && (forall i :: 0 <= i < |targets| ==> targets[i] < |load| && Count(sources, targets[i]) == 0)
  }

  /** The moves have taken every block from its source to its target. */
  ghost predicate Moved(load: seq<nat>, after: seq<nat>, sources: seq<nat>, targets: seq<nat>) {
    |after| == |load| && forall x :: 0 <= x < |load| ==> after[x] == load[x] - Count(sources, x) + Count(targets, x)
  }

  lemma {:induction false} ApplyEach(load: seq<nat>, sources: seq<nat>, targets: seq<nat>)
    requires |sources| == |targets| && Movable(load, sources, targets)
    ensures Apply(load, MovesEach(sources, targets)).Loads?
    ensures Moved(load, Apply(load, MovesEach(sources, targets)).load, sources, targets)
    decreases |sources|
  {
    if sources != [] {
      var n := |sources| - 1;
      var init, rest := sources[..n], targets[..n];
      EarlierTargets(load, sources, targets, init, rest);
      ApplyEach(load, init, rest);
      var plan := MovesEach(init, rest);
      LastMove(load, Apply(load, plan).load, sources, targets, init, rest, sources[n], targets[n]);
      ApplyLast(load, plan, Transfer(sources[n] + 1, targets[n] + 1, 0));
    }
  }

  /** The last move can be carried out once the others have been. */
  lemma LastMove(load: seq<nat>, mid: seq<nat>, sources: seq<nat>, targets: seq<nat>, init: seq<nat>, rest: seq<nat>,
                 src: nat, target: nat)
    requires |sources| == |targets| > 0 && Movable(load, sources, targets) && Moved(load, mid, init, rest)
    requires init == sources[..|sources| - 1] && rest == targets[..|targets| - 1]
    requires src == sources[|sources| - 1] && target == targets[|targets| - 1]
    ensures Feasible(mid, Transfer(src + 1, target + 1, 0))
    ensures Moved(load, ApplyOne(mid, Transfer(src + 1, target + 1, 0)), sources, targets)
  {
    assert Count(sources, src) <= if src < |load| then load[src] else 0;
    assert Count(sources, target) == 0;
  }

  lemma EarlierTargets(load: seq<nat>, sources: seq<nat>, targets: seq<nat>, init: seq<nat>, rest: seq<nat>)
    requires |sources| == |targets| > 0 && Movable(load, sources, targets)
    requires init == sources[..|sources| - 1] && rest == targets[..|targets| - 1]
    ensures Movable(load, init, rest)
  {
  }

  /** The loads once the plan with these targets has been carried out. */
  function LoadsWith(c: Params, a: Dist, b: Dist, targets: seq<nat>): Result
    requires InRange(c, a) && InRange(c, b) && |targets| == Overflow(a, b)
  {
    Apply(Load(StartNodes(a, b, c.m), c.nodeNum), PlanWith(c, a, b, targets))
  }

  /** Afterwards every occupied node holds one block, and a target as many as it was chosen for. */
  lemma LoadWith(c: Params, a: Dist, b: Dist, targets: seq<nat>)
    requires InRange(c, a) && InRange(c, b) && |targets| == Overflow(a, b) && FreeTargets(c, a, b, targets)
    ensures LoadsWith(c, a, b, targets).Loads?
    ensures forall x :: 0 <= x < c.nodeNum ==>
              LoadsWith(c, a, b, targets).load[x]
              == (if x in Occupied(a, b, c.m) then 1 else 0) + Count(targets, x)
  {
    var n, nodes := c.nodeNum, BlockNodes(a, b, c.m);
    var host, start := Load(nodes, n), Load(StartNodes(a, b, c.m), n);
    var sources := Surplus(host, n);
    RelocationsMatchCost(c, a, b);
    ApplyParity(c, a, b, c.m, start, []);
    var mid := Apply(start, ParityTransfers(a, b, c.m)).load;
    BlockNodesOccupied(a, b, c.m);
    forall x: nat ensures x < n ==> mid[x] == host[x] && (host[x] > 0 <==> x in Occupied(a, b, c.m))
                  ensures Count(sources, x) == if x < n then Extra(host[x]) else 0
    {
      CountMember(nodes, x);
      SurplusCount(host, n, x);
    }
    ApplyEach(mid, sources, targets);
    ApplyAppend(start, ParityTransfers(a, b, c.m), MovesEach(sources, targets));
  }

  lemma {:induction false} DistinctCounts(s: seq<nat>, x: nat)
    requires Distinct(s)
    ensures Count(s, x) <= 1
  {
    if s != [] {
      var init := s[..|s| - 1];
      assert Distinct(init);
      DistinctCounts(init, x);
      CountMember(init, x);
    }
  }

  lemma {:induction false} CountsDistinct(s: seq<nat>)
    requires forall x: nat :: Count(s, x) <= 1
    ensures Distinct(s)
  {
    if s != [] {
      var init, last := s[..|s| - 1], s[|s| - 1];
      assert Count(s, last) <= 1;
      CountMember(init, last);
      forall x: nat ensures Count(init, x) <= 1 {
        assert Count(s, x) <= 1;
      }
      CountsDistinct(init);
      assert forall i :: 0 <= i < |init| ==> s[i] == init[i] && init[i] in init;
    }
  }

  ghost predicate AtMostOne(load: seq<nat>) {
    forall x :: 0 <= x < |load| ==> load[x] <= 1
  }

  /** The blocks of the wide stripe end up on different nodes exactly when every relocated block has a
      target of its own. */
  lemma SpreadIff(c: Params, a: Dist, b: Dist, targets: seq<nat>)
    requires InRange(c, a) && InRange(c, b) && |targets| == Overflow(a, b) && FreeTargets(c, a, b, targets)
    ensures LoadsWith(c, a, b, targets).Loads?
    ensures AtMostOne(LoadsWith(c, a, b, targets).load) <==> Distinct(targets)
  {
    LoadWith(c, a, b, targets);
    var load := LoadsWith(c, a, b, targets).load;
    if Distinct(targets) {
      forall x | 0 <= x < |load| ensures load[x] <= 1 {
        DistinctCounts(targets, x);
        CountMember(targets, x);
      }
    } else if AtMostOne(load) {
      forall x: nat ensures Count(targets, x) <= 1 {
        CountMember(targets, x);
        assert x < |load| ==> load[x] <= 1;
      }
      CountsDistinct(targets);
    }
  }

  lemma {:induction false} FreeNodesDistinct(host: seq<nat>, n: nat)
    requires n <= |host|
    ensures Distinct(FreeNodes(host, n))
  {
    if n > 0 {
      FreeNodesDistinct(host, n - 1);
      FreeNodesAreFree(host, n - 1);
      var before := FreeNodes(host, n - 1);
      forall i | 0 <= i < |before| ensures before[i] != n - 1 {
        assert before[i] in before;
      }
    }
  }

  /** With `nodeNum >= 2k + m` there is always a choice that works, of as many transfers: taking every
      target from the list of free nodes and removing that one. */
  lemma EnoughTargets(c: Params, a: Dist, b: Dist) returns (targets: seq<nat>)
    requires InRange(c, a) && InRange(c, b) && c.nodeNum >= 2 * c.k + c.m
    ensures |targets| == Overflow(a, b) && FreeTargets(c, a, b, targets) && Distinct(targets)
    ensures |PlanWith(c, a, b, targets)| == Cost(a, b)
    ensures LoadsWith(c, a, b, targets).Loads? && AtMostOne(LoadsWith(c, a, b, targets).load)
  {
    var host := Load(BlockNodes(a, b, c.m), c.nodeNum);
    var free := FreeNodes(host, c.nodeNum);
    RelocationsMatchCost(c, a, b);
    FreeNodesDistinct(host, c.nodeNum);
    FreeNodesAreFree(host, c.nodeNum);
    targets := free[..Overflow(a, b)];
    forall i | 0 <= i < |targets| ensures targets[i] < c.nodeNum && targets[i] !in Occupied(a, b, c.m) {
      assert targets[i] in free;
      FreeNotOccupied(c, a, b, targets[i]);
    }
    SpreadIff(c, a, b, targets);
  }

  // -------------------------------------------------------------------------------------------
  // The program's choice
  // -------------------------------------------------------------------------------------------

  /** The loads once the program's plan has been carried out. */
  function FinalLoads(c: Params, a: Dist, b: Dist, target: nat): Result
    requires InRange(c, a) && InRange(c, b)
  {
    Apply(Load(StartNodes(a, b, c.m), c.nodeNum), PairPlan(c, a, b, target))
  }

  /** Every transfer of the plan can be carried out.  Afterwards every occupied node holds one block,
      and the one target of all relocations holds all of them. */
  lemma FinalLoad(c: Params, a: Dist, b: Dist, target: nat)
    requires InRange(c, a) && InRange(c, b) && GoodTarget(c, a, b, target)
    ensures FinalLoads(c, a, b, target).Loads?
    ensures forall x :: 0 <= x < c.nodeNum ==>
              FinalLoads(c, a, b, target).load[x]
              == (if x in Occupied(a, b, c.m) then 1 else 0) + (if x == target then Overflow(a, b) else 0)
  {
    OverflowNatural(a, b);
    var n := Overflow(a, b);
    var targets := Repeat(target, n);
    forall i | 0 <= i < n ensures targets[i] == target {
      RepeatMembers(target, n, i);
    }
    ProgramsTargets(c, a, b, target);
    LoadWith(c, a, b, targets);
    forall x | 0 <= x < c.nodeNum ensures Count(targets, x) == if x == target then n else 0 {
      RepeatCount(target, n, x);
    }
  }

  /** Carrying out the plan leaves the `2k + m` blocks of the wide stripe on different nodes exactly
      when at most one block overflows.  With two or more the plan sends them all to the same node,
      because targets are read from the front of the free list and removed from its back. */
  lemma DistinctNodesIff(c: Params, a: Dist, b: Dist, target: nat)
    requires InRange(c, a) && InRange(c, b) && GoodTarget(c, a, b, target)
    ensures FinalLoads(c, a, b, target).Loads?
    ensures AtMostOne(FinalLoads(c, a, b, target).load) <==> Overflow(a, b) <= 1
  {
    OverflowNatural(a, b);
    FinalLoad(c, a, b, target);
    if Overflow(a, b) > 1 {
      assert FinalLoads(c, a, b, target).load[target] > 1;
    }
  }

  /** The smallest failure: two stripes on the same three nodes of five, cost two, both moves to the
      same free node. */
  lemma TwoMovesCollide(c: Params, a: Dist, target: nat)
    requires c == Params(5, 2, 1) && a == Dist([0, 1], [2]) && (target == 3 || target == 4)
    ensures WellPlaced(c, a) && c.nodeNum >= 2 * c.k + c.m && Cost(a, a) == 2
    ensures FinalLoads(c, a, a, target).Loads? && FinalLoads(c, a, a, target).load[target] == 2
  {
    ThreeNodes(c, a);
    FinalLoad(c, a, a, target);
  }

  lemma ThreeNodes(c: Params, a: Dist)
    requires c == Params(5, 2, 1) && a == Dist([0, 1], [2])
    ensures WellPlaced(c, a) && Cost(a, a) == 2 == Overflow(a, a)
    ensures Occupied(a, a, 1) == {0, 1, 2}
  {
    assert a.data + a.parity == [0, 1, 2];
    assert SetOf(a.data) == {0, 1};
    assert Occupied(a, a, 1) == {0, 1, 2};
  }
}
