/**
 Whom a plain search chooses (src/matching_generator.cc, single_search): a cheapest partner, the first of the
 list among equals.
 */
module PlainChoice {
  import opened Stripes
  import opened Matchings
  import opened SearchSteps
  import opened PlainSearch

  /** A stripe that `p` may be matched with. */
  ghost predicate Eligible(ms: seq<Mark>, p: nat, x: nat) {
    x < |ms| && x != p && !ms[x].selected
  }

  ghost predicate NoneBelow(w: Costs, ms: seq<Mark>, p: nat, list: seq<nat>, k: nat, cost: nat)
    requires Sized(w, ms) && p < |ms| && k <= |list|
  {
    forall l :: 0 <= l < k && Eligible(ms, p, list[l]) ==> w[p][list[l]] >= cost
  }

  /** The `k`-th stripe of the list is the first cheapest one, and cheaper than `cost`. */
  ghost predicate FirstCheapest(w: Costs, ms: seq<Mark>, p: nat, list: seq<nat>, k: nat, cost: nat)
    requires Sized(w, ms) && p < |ms|
  {
    && k < |list| && Eligible(ms, p, list[k]) && w[p][list[k]] < cost
    && NoneBelow(w, ms, p, list, k, w[p][list[k]] + 1) && NoneBelow(w, ms, p, list, |list|, w[p][list[k]])
  }

  ghost predicate Chosen(w: Costs, ms: seq<Mark>, p: nat, list: seq<nat>, best: Choice, r: Choice)
    requires Sized(w, ms) && p < |ms|
  {
    if NoneBelow(w, ms, p, list, |list|, best.cost) then r == best
    else exists k: nat :: FirstCheapest(w, ms, p, list, k, best.cost) && r == Choice(w[p][list[k]], list[k])
  }

  /** If nobody in the list costs less than the target, a scan that stops at the target finds the first cheapest
      stripe of the whole list. */
  lemma {:induction false} FirstBest(w: Costs, ms: seq<Mark>, p: nat, list: seq<nat>, target: nat, best: Choice)
    requires Sized(w, ms) && p < |ms| && best.cost >= target && NoneBelow(w, ms, p, list, |list|, target)
    ensures Chosen(w, ms, p, list, best, BestOf(w, ms, p, list, target, best))
    decreases |list|
  {
    if list != [] && best.cost != target {
      var x, rest := list[0], list[1..];
      assert forall l :: 0 <= l < |rest| ==> rest[l] == list[l + 1];
      var next := Better(w, ms, p, x, best);
      FirstBest(w, ms, p, rest, target, next);
      ChosenCons(w, ms, p, list, best, BestOf(w, ms, p, rest, target, next));
    }
  }

  lemma ChosenCons(w: Costs, ms: seq<Mark>, p: nat, list: seq<nat>, best: Choice, r: Choice)
    requires Sized(w, ms) && p < |ms| && list != []
    requires Chosen(w, ms, p, list[1..], Better(w, ms, p, list[0], best), r)
    ensures Chosen(w, ms, p, list, best, r)
  {
    var rest, next := list[1..], Better(w, ms, p, list[0], best);
    NoneBelowCons(w, ms, p, list, |rest|, best.cost);
    NoneBelowCons(w, ms, p, list, |rest|, next.cost);
    if NoneBelow(w, ms, p, rest, |rest|, next.cost) {
      if next != best {
        assert FirstCheapest(w, ms, p, list, 0, best.cost);
      }
    } else {
      var k: nat :| FirstCheapest(w, ms, p, rest, k, next.cost) && r == Choice(w[p][rest[k]], rest[k]);
      NoneBelowCons(w, ms, p, list, k, r.cost + 1);
      NoneBelowCons(w, ms, p, list, |rest|, r.cost);
      assert list[k + 1] == rest[k];
      assert FirstCheapest(w, ms, p, list, k + 1, best.cost);
    }
  }

  lemma NoneBelowCons(w: Costs, ms: seq<Mark>, p: nat, list: seq<nat>, k: nat, cost: nat)
    requires Sized(w, ms) && p < |ms| && list != [] && k < |list|
    ensures NoneBelow(w, ms, p, list, k + 1, cost)
       <==> (Eligible(ms, p, list[0]) ==> w[p][list[0]] >= cost) && NoneBelow(w, ms, p, list[1..], k, cost)
  {
    var rest := list[1..];
    forall l | 0 <= l < k ensures rest[l] == list[l + 1] {
    }
    if NoneBelow(w, ms, p, list, k + 1, cost) {
      forall l | 0 <= l < k && Eligible(ms, p, rest[l]) ensures w[p][rest[l]] >= cost {
        assert rest[l] == list[l + 1];
      }
    } else {
      var l :| 0 <= l < k + 1 && Eligible(ms, p, list[l]) && w[p][list[l]] < cost;
      assert l > 0 ==> rest[l - 1] == list[l];
    }
  }
}
