/**
 The transfer plan of a whole matching (src/matching_generator.cc, get_sending_scheme).
 */
module Schemes {
  import opened Stripes
  import opened Matchings
  import opened SearchIndex
  import opened Migration
  import opened Transfers

  type Plan = seq<Transfer>

  function Flatten(plans: seq<Plan>): Plan {
    if plans == [] then [] else Flatten(plans[..|plans| - 1]) + plans[|plans| - 1]
  }

  /** `plan` is a plan for stripe `p` and its partner, in this order; nothing if the partner comes
      first. */
  ghost predicate Planned(c: Params, ds: seq<Dist>, ms: seq<Mark>, p: nat, plan: Plan) {
    && p < |ds| && p < |ms| && ms[p].matchingIndex < |ds|
    && if p < ms[p].matchingIndex then PlanFor(c, ds[p], ds[ms[p].matchingIndex], plan) else plan == []
  }

  /** The plans of the stripes in index order. */
  ghost predicate AllPlanned(c: Params, ds: seq<Dist>, ms: seq<Mark>, plans: seq<Plan>) {
    forall p :: 0 <= p < |plans| ==> Planned(c, ds, ms, p, plans[p])
  }

  lemma PlanForSize(c: Params, a: Dist, b: Dist, plan: Plan)
    requires PlanFor(c, a, b, plan)
    ensures |plan| == Cost(a, b)
  {
    var target :| plan == PairPlan(c, a, b, target) && GoodTarget(c, a, b, target);
    PlanSizeIsCost(c, a, b, target);
  }

  /** A pair of cost zero needs no transfer. */
  lemma FreePairPlan(c: Params, a: Dist, b: Dist)
    requires InRange(c, a) && InRange(c, b) && Cost(a, b) == 0
    ensures PlanFor(c, a, b, [])
  {
    PlanSizeIsCost(c, a, b, 0);
    OverflowNatural(a, b);
    assert [] == PairPlan(c, a, b, 0) && GoodTarget(c, a, b, 0);
  }

  lemma PlannedSize(c: Params, ds: seq<Dist>, w: Costs, ms: seq<Mark>, p: nat, plan: Plan)
    requires Prices(c, ds, w) && Sized(w, ms) && Planned(c, ds, ms, p, plan)
    requires ms[p].curCost == w[p][ms[p].matchingIndex]
    ensures |plan| == if p < ms[p].matchingIndex then ms[p].curCost else 0
  {
    if p < ms[p].matchingIndex {
      PlanForSize(c, ds[p], ds[ms[p].matchingIndex], plan);
      assert w[p][ms[p].matchingIndex] == PairCost(c, ds, p, ms[p].matchingIndex);
    }
  }

  /** The plan has as many transfers as the pairs cost: every pair is planned in the order of its
      stripes in which its cost was computed. */
  lemma {:induction false} SchemeSize(c: Params, ds: seq<Dist>, w: Costs, ms: seq<Mark>, plans: seq<Plan>)
    requires Prices(c, ds, w) && Sized(w, ms) && AllPlanned(c, ds, ms, plans) && |plans| <= |ms|
    requires forall p :: 0 <= p < |ms| ==> ms[p].matchingIndex < |ms| && ms[p].curCost == w[p][ms[p].matchingIndex]
    ensures |Flatten(plans)| == SumBelow(ms, |plans|)
    decreases |plans|
  {
    var n := |plans|;
    if n == 0 {
      assert FirstsBelow(ms, 0) == {};
    } else {
      SchemeSize(c, ds, w, ms, plans[..n - 1]);
      SumBelowNext(ms, n - 1);
      assert Planned(c, ds, ms, n - 1, plans[n - 1]);
      PlannedSize(c, ds, w, ms, n - 1, plans[n - 1]);
    }
  }

  lemma FlattenPush(plans: seq<Plan>, plan: Plan)
    ensures Flatten(plans + [plan]) == Flatten(plans) + plan
  {
  }

  lemma PlannedPush(c: Params, ds: seq<Dist>, ms: seq<Mark>, plans: seq<Plan>, plan: Plan)
    requires AllPlanned(c, ds, ms, plans) && Planned(c, ds, ms, |plans|, plan)
    ensures AllPlanned(c, ds, ms, plans + [plan])
  {
    var all := plans + [plan];
    forall p | 0 <= p < |all| ensures Planned(c, ds, ms, p, all[p]) {
      if p < |plans| {
        assert all[p] == plans[p] && Planned(c, ds, ms, p, plans[p]);
      } else {
        assert p == |plans| && all[p] == plan;
      }
    }
  }

  /** The transfers of a pair stand together, after those of all stripes before it. */
  lemma {:induction false} PlansInOrder(plans: seq<Plan>, i: nat)
    requires i < |plans|
    ensures Flatten(plans) == Flatten(plans[..i]) + plans[i] + Flatten(plans[i + 1..])
    decreases |plans|
  {
    var n := |plans| - 1;
    if i < n {
      PlansInOrder(plans[..n], i);
      assert plans[..n][..i] == plans[..i] && plans[..n][i + 1..] == plans[i + 1..n];
      assert plans[i + 1..][..n - i - 1] == plans[i + 1..n];
      assert Flatten(plans[i + 1..]) == Flatten(plans[i + 1..n]) + plans[n];
    } else {
      assert Flatten(plans[i + 1..]) == [];
    }
  }
}
