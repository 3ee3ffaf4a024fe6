/**
 The steps of the exhaustive greedy (src/matching_generator.cc, basic_greedy): levels of pairs by
 cost, and the selection of pairs level by level.
 */
module GreedySteps {
  import opened Stripes
  import opened Matchings
  import opened Optimizer

  type Pairs = seq<(nat, nat)>

  /** What `basic_greedy` reports: the process exits on bad parameters. */
  datatype Outcome = BadInput | Total(cost: nat)

  /** `cost * count` summed over a table of counts. */
  function WeightedSum(counts: seq<nat>): nat {
    if counts == [] then 0
    else WeightedSum(counts[..|counts| - 1]) + (|counts| - 1) * counts[|counts| - 1]
  }

  lemma {:induction false} WeightedBump(counts: seq<nat>, cost: nat)
    requires cost < |counts|
    ensures WeightedSum(counts[cost := counts[cost] + 1]) == WeightedSum(counts) + cost
  {
    var last := |counts| - 1;
    var after := counts[cost := counts[cost] + 1];
    if cost == last {
      assert after[..last] == counts[..last];
      assert last * (counts[last] + 1) == last * counts[last] + last;
    } else {
      WeightedBump(counts[..last], cost);
      assert after[..last] == counts[..last][cost := counts[cost] + 1];
    }
  }

  lemma {:induction false} WeightedZero(counts: seq<nat>)
    requires forall i :: 0 <= i < |counts| ==> counts[i] == 0
    ensures WeightedSum(counts) == 0
  {
    if counts != [] {
      WeightedZero(counts[..|counts| - 1]);
    }
  }

  function NoCounts(n: nat): (counts: seq<nat>)
    ensures |counts| == n && WeightedSum(counts) == 0
  {
    var counts: seq<nat> := seq(n, _ => 0);
    WeightedZero(counts);
    counts
  }

  function NoFlags(n: nat): (flag: seq<bool>)
    ensures |flag| == n && forall p :: 0 <= p < n ==> !flag[p]
  {
    seq(n, _ => false)
  }

  /** The pairs whose smaller index is below `i` have been visited and counted. */
  ghost predicate Counted(ms: seq<Mark>, flag: seq<bool>, count: seq<nat>, i: nat) {
    Flagged(ms, flag, i) && WeightedSum(count) == SumBelow(ms, i)
  }

  lemma NothingCounted(w: Costs, ms: seq<Mark>, flag: seq<bool>, count: seq<nat>)
    requires Sized(w, ms) && Perfect(w, ms) && flag == NoFlags(|ms|) && WeightedSum(count) == 0
    ensures Counted(ms, flag, count, 0)
  {
    SumBelowAll(w, ms);
  }

  lemma AllCounted(w: Costs, ms: seq<Mark>, flag: seq<bool>, count: seq<nat>)
    requires Sized(w, ms) && Perfect(w, ms) && Counted(ms, flag, count, |ms|)
    ensures WeightedSum(count) == TotalCost(ms)
  {
    SumBelowAll(w, ms);
  }

  /** The loop that adds up a table of counts. */
  method AddUp(counts: seq<nat>) returns (total: nat)
    ensures total == WeightedSum(counts)
  {
    total := 0;
    for i := 0 to |counts|
      invariant total == WeightedSum(counts[..i])
    {
      assert counts[..i + 1][..i] == counts[..i];
      total := total + i * counts[i];
    }
    assert counts[..|counts|] == counts;
  }

  /** The pairs of one level: unselected stripes of exactly this cost. */
  ghost predicate LevelOk(w: Costs, live: set<nat>, level: Pairs, cost: nat)
    requires Symmetric(w)
  {
    forall t :: 0 <= t < |level| ==>
      level[t].0 < level[t].1 < |w| && level[t].0 in live && level[t].1 in live
      && w[level[t].0][level[t].1] == cost
  }

  ghost predicate Leveled(w: Costs, levels: seq<Pairs>, p: nat, q: nat)
    requires Symmetric(w) && p < |w| && q < |w|
  {
    w[p][q] < |levels| && (p, q) in levels[w[p][q]]
  }

  /** The levels hold every pair of `live` that comes before `(i, j)`, and nothing else. */
  ghost predicate LevelsOk(w: Costs, live: set<nat>, levels: seq<Pairs>, i: nat, j: nat)
    requires Symmetric(w)
  {
    && (forall cost :: 0 <= cost < |levels| ==> LevelOk(w, live, levels[cost], cost))
    && (forall p, q :: 0 <= p < q < |w| && p in live && q in live && (p < i || (p == i && q < j))
          ==> Leveled(w, levels, p, q))
  }

  lemma PushKeepsLevels(w: Costs, live: set<nat>, levels: seq<Pairs>, i: nat, j: nat)
    requires Symmetric(w) && i < j < |w| && i in live && j in live && w[i][j] < |levels|
    requires LevelsOk(w, live, levels, i, j)
    ensures LevelsOk(w, live, levels[w[i][j] := levels[w[i][j]] + [(i, j)]], i, j + 1)
  {
    var after := levels[w[i][j] := levels[w[i][j]] + [(i, j)]];
    assert LevelOk(w, live, levels[w[i][j]], w[i][j]);
    forall p, q | 0 <= p < q < |w| && p in live && q in live && (p < i || (p == i && q < j + 1))
      ensures Leveled(w, after, p, q)
    {
      assert (p, q) != (i, j) ==> Leveled(w, levels, p, q);
    }
  }

  /** Between the selections of the greedy. */
  ghost predicate GreedyInv(w: Costs, ds: seq<Dist>, st: State, cands: seq<nat>, live: set<nat>, flag: seq<bool>, num: nat) {
    && Inv(w, ds, st, cands) && Guarded(w, st.marks)
    && |Unselected(st.marks)| <= 2 * num + 1
    && |flag| == |w| && Unselected(st.marks) <= live
    && (forall p :: p in live && p < |w| ==> (flag[p] <==> st.marks[p].selected))
  }

  /** The counting side of a selection. */
  lemma GreedySelectCounts(ms: seq<Mark>, live: set<nat>, flag: seq<bool>, num: nat, i: nat, j: nat, cost: nat)
    requires i < j < |ms| == |flag| && i in live && j in live && !ms[i].selected && !ms[j].selected
    requires |Unselected(ms)| <= 2 * num + 1 && Unselected(ms) <= live
    requires forall p :: p in live && p < |ms| ==> (flag[p] <==> ms[p].selected)
    ensures num > 0
    ensures var ns := MarkPair(ms, i, j, cost);
            && |Unselected(ns)| <= 2 * (num - 1) + 1 && Unselected(ns) <= live
            && forall p :: p in live && p < |ns| ==> (flag[i := true][j := true][p] <==> ns[p].selected)
  {
    SelectShrinks(ms, i, j, cost);
  }

  /** Selecting a pair of the current level. */
  lemma GreedySelect(w: Costs, ds: seq<Dist>, st: State, cands: seq<nat>, live: set<nat>, flag: seq<bool>, num: nat,
                     i: nat, j: nat, cost: nat)
    requires GreedyInv(w, ds, st, cands, live, flag, num) && Floor(w, st.marks, cost)
    requires i < j < |w| && i in live && j in live && w[i][j] == cost && !flag[i] && !flag[j]
    ensures num > 0
    ensures var st' := State(MarkPair(st.marks, i, j, cost), st.zeroMap);
            && GreedyInv(w, ds, st', cands, live, flag[i := true][j := true], num - 1)
            && Floor(w, st'.marks, cost) && TotalCost(st'.marks) == TotalCost(st.marks) + cost
  {
    GreedySelectCounts(st.marks, live, flag, num, i, j, cost);
    SelectKeeps(w, st.marks, i, j, cost);
    SelectAddsCost(w, st.marks, i, j, cost);
    NoteKeeps(w, ds, st, cands, i, j, cost, false);
    SelectKeepsFloor(w, st.marks, i, j, cost, cost);
  }

  /** The pairs handled so far have a selected stripe each. */
  ghost predicate Covered(ms: seq<Mark>, level: Pairs, t: nat) {
    forall s :: 0 <= s < t && s < |level| && level[s].0 < |ms| && level[s].1 < |ms|
      ==> ms[level[s].0].selected || ms[level[s].1].selected
  }

  lemma CoverOne(ms: seq<Mark>, ns: seq<Mark>, level: Pairs, t: nat)
    requires |ms| == |ns| && Unselected(ns) <= Unselected(ms) && Covered(ms, level, t) && t < |level|
    requires level[t].0 < |ns| && level[t].1 < |ns| && (ns[level[t].0].selected || ns[level[t].1].selected)
    ensures Covered(ns, level, t + 1)
  {
    assert forall p :: 0 <= p < |ns| && ms[p].selected ==> p !in Unselected(ms) && p !in Unselected(ns);
  }

  /** When a level is exhausted, or nothing is left to select, the floor rises. */
  lemma LevelDone(w: Costs, ms: seq<Mark>, live: set<nat>, levels: seq<Pairs>, cost: nat)
    requires Sized(w, ms) && LevelsOk(w, live, levels, |w|, 0) && cost < |levels|
    requires Floor(w, ms, cost) && Unselected(ms) <= live
    requires Covered(ms, levels[cost], |levels[cost]|) || |Unselected(ms)| <= 1
    ensures Floor(w, ms, cost + 1)
  {
    forall p, q | 0 <= p < |ms| && 0 <= q < |ms| && p != q && !ms[p].selected && !ms[q].selected
      ensures w[p][q] >= cost + 1
    {
      var lo, hi := if p < q then p else q, if p < q then q else p;
      assert w[p][q] == w[lo][hi] >= cost;
      assert lo in Unselected(ms) && hi in Unselected(ms);
      if |Unselected(ms)| <= 1 {
        NotBothUnselected(ms, lo, hi);
      }
      assert Leveled(w, levels, lo, hi);
    }
  }

  lemma NothingSelected(ms: seq<Mark>)
    requires forall p :: 0 <= p < |ms| ==> !ms[p].selected
    ensures TotalCost(ms) == 0
  {
  }

  /** Selecting half the listed stripes leaves at most one unselected, even if the list also has selected
      ones. */
  lemma EnoughToSelect(ms: seq<Mark>, remaining: seq<nat>, remainFlag: bool)
    requires remainFlag ==> Unselected(ms) <= SetOf(remaining)
    ensures |Unselected(ms)| <= 2 * ((if remainFlag then |remaining| else |ms|) / 2) + 1
  {
    if remainFlag {
      SetOfSmall(remaining);
      SubsetSmaller(Unselected(ms), SetOf(remaining));
    } else {
      EveryoneSize(|ms|);
      SubsetSmaller(Unselected(ms), Everyone(|ms|));
    }
  }
}
