/**
 The plan of a pair, transfer by transfer (src/matching_generator.cc, get_one_scheme).
 */
module PlanShape {
  import opened Stripes
  import opened Migration
  import opened Transfers

  /** The transfer for a misaligned position is the one at the number of misaligned positions before it. */
  lemma {:induction false} ParityTransferAt(a: Dist, b: Dist, n: nat, i: nat)
    requires i < n <= |a.parity| == |b.parity| && a.parity[i] != b.parity[i]
    ensures Mismatches(a.parity, b.parity, i) < Mismatches(a.parity, b.parity, n)
    ensures ParityTransfers(a, b, n)[Mismatches(a.parity, b.parity, i)]
         == if a.parity[i] in Occupied(a, b, i) then Transfer(a.parity[i] + 1, b.parity[i] + 1, i + 1)
            else Transfer(b.parity[i] + 1, a.parity[i] + 1, i + 1)
  {
    if i < n - 1 {
      ParityTransferAt(a, b, n - 1, i);
    }
  }

  lemma {:induction false} MovesToShape(sources: seq<nat>, target: nat, k: nat)
    requires k < |sources|
    ensures MovesTo(sources, target)[k] == Transfer(sources[k] + 1, target + 1, 0)
  {
    if k < |sources| - 1 {
      MovesToShape(sources[..|sources| - 1], target, k);
    }
  }

  ghost predicate Ascending(s: seq<nat>) {
    forall i, j :: 0 <= i < j < |s| ==> s[i] <= s[j]
  }

  lemma {:induction false} SurplusAscends(host: seq<nat>, n: nat)
    requires n <= |host|
    ensures Ascending(Surplus(host, n)) && forall i :: 0 <= i < |Surplus(host, n)| ==> Surplus(host, n)[i] < n
  {
    if n > 0 {
      SurplusAscends(host, n - 1);
      var k := Extra(host[n - 1]);
      var more := Repeat(n - 1, k);
      forall i | 0 <= i < k ensures more[i] == n - 1 {
        RepeatMembers(n - 1, k, i);
      }
    }
  }

  /** For each misaligned position one transfer, in order: away from the first stripe's node if that is taken
      and else to it. */
  lemma ParityPart(c: Params, a: Dist, b: Dist, target: nat, i: nat)
    requires InRange(c, a) && InRange(c, b) && i < c.m && a.parity[i] != b.parity[i]
    ensures Mismatches(a.parity, b.parity, i) < Mismatches(a.parity, b.parity, c.m) <= |PairPlan(c, a, b, target)|
    ensures PairPlan(c, a, b, target)[Mismatches(a.parity, b.parity, i)]
         == if a.parity[i] in Occupied(a, b, i) then Transfer(a.parity[i] + 1, b.parity[i] + 1, i + 1)
            else Transfer(b.parity[i] + 1, a.parity[i] + 1, i + 1)
  {
    ParityTransferAt(a, b, c.m, i);
  }

  /** After them the relocations, all to the target, by ascending source. */
  lemma MovesPart(c: Params, a: Dist, b: Dist, target: nat, k: nat)
    requires InRange(c, a) && InRange(c, b)
    requires Mismatches(a.parity, b.parity, c.m) <= k < |PairPlan(c, a, b, target)|
    ensures var plan := PairPlan(c, a, b, target);
            && plan[k].target == target + 1 && plan[k].coefficient == 0
            && (k + 1 < |plan| ==> plan[k].source <= plan[k + 1].source)
  {
    var sources := Surplus(Load(BlockNodes(a, b, c.m), c.nodeNum), c.nodeNum);
    var at := k - Mismatches(a.parity, b.parity, c.m);
    SurplusAscends(Load(BlockNodes(a, b, c.m), c.nodeNum), c.nodeNum);
    MovesToShape(sources, target, at);
    if at + 1 < |sources| {
      MovesToShape(sources, target, at + 1);
    }
  }
}
