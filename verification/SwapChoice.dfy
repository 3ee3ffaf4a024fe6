/**
 Which swap the optimiser makes (src/matching_generator.cc, make_optimization), said on the marks and lists
 themselves: the candidates in the order in which they were noted, each with the first free pair of its parity
 list that allows a swap, straight rather than crossed.
 */
module SwapChoice {
  import opened Stripes
  import opened Matchings
  import opened Optimizer
  import opened OptimizerEnd

  /** All indices that are looked at are stripes. */
  ghost predicate Within(w: Costs, ds: seq<Dist>, ms: seq<Mark>, x: nat, i: nat) {
    && Sized(w, ms) && |ds| == |ms| && x < |ms| && i < |ms|
    && ms[x].matchingIndex < |ms| && ms[i].matchingIndex < |ms|
  }

  ghost predicate StraightFits(w: Costs, ds: seq<Dist>, ms: seq<Mark>, x: nat, i: nat)
    requires Within(w, ds, ms, x, i)
  {
    w[x][i] == 0 && w[ms[x].matchingIndex][ms[i].matchingIndex] == 0
  }

  ghost predicate CrossedFits(w: Costs, ds: seq<Dist>, ms: seq<Mark>, x: nat, i: nat)
    requires Within(w, ds, ms, x, i)
  {
    w[x][ms[i].matchingIndex] == 0 && w[ms[x].matchingIndex][i] == 0
  }

  /** `p` and `q` are paired, `r` and `s` are paired, all for nothing, and `p` is entered first in its list. */
  ghost predicate Repaired(ds: seq<Dist>, st: State, st': State, p: nat, q: nat, r: nat, s: nat) {
    && |ds| == |st.marks| && p < |ds| && q < |ds| && r < |ds| && s < |ds|
    && st'.marks == st.marks[p := Mark(q, 0, true)][q := Mark(p, 0, true)][r := Mark(s, 0, true)][s := Mark(r, 0, true)]
    && st'.zeroMap
       == st.zeroMap[ds[p].parity := [p] + if ds[p].parity in st.zeroMap then st.zeroMap[ds[p].parity] else []]
  }

  /** The free pair of `i` is the one the pair of `x` is re-paired with. */
  ghost predicate SwappedWith(w: Costs, ds: seq<Dist>, st: State, st': State, x: nat, i: nat)
    requires Within(w, ds, st.marks, x, i)
  {
    var y, j := st.marks[x].matchingIndex, st.marks[i].matchingIndex;
    if StraightFits(w, ds, st.marks, x, i) then Repaired(ds, st, st', y, j, x, i)
    else CrossedFits(w, ds, st.marks, x, i) && Repaired(ds, st, st', x, j, y, i)
  }

  ghost predicate NoFit(w: Costs, ds: seq<Dist>, ms: seq<Mark>, x: nat, list: seq<nat>, k: nat)
    requires k <= |list|
  {
    forall l :: 0 <= l < k ==>
      Within(w, ds, ms, x, list[l]) && !StraightFits(w, ds, ms, x, list[l]) && !CrossedFits(w, ds, ms, x, list[l])
  }

  /** `x` has been re-paired with the first entry of the list that fits, or none does and nothing has changed. */
  ghost predicate Handled(w: Costs, ds: seq<Dist>, st: State, st': State, x: nat, list: seq<nat>) {
    || (NoFit(w, ds, st.marks, x, list, |list|) && st' == st)
    || exists k: nat :: k < |list| && NoFit(w, ds, st.marks, x, list, k)
                     && Within(w, ds, st.marks, x, list[k]) && SwappedWith(w, ds, st, st', x, list[k])
  }

  lemma TryOneFits(w: Costs, ds: seq<Dist>, st: State, x: nat, i: nat)
    requires Within(w, ds, st.marks, x, i) && st.marks[st.marks[x].matchingIndex].matchingIndex == x
    ensures var swap := TryOne(w, st.marks, x, i);
            if swap.NoSwap?
            then !StraightFits(w, ds, st.marks, x, i) && !CrossedFits(w, ds, st.marks, x, i)
            else swap.i == i && SwappedWith(w, ds, st, ApplySwap(ds, st, x, swap), x, i)
  {
  }

  /** The search stops at the first entry that fits. */
  lemma {:induction false} FindSwapFrom(w: Costs, ds: seq<Dist>, st: State, x: nat, list: seq<nat>, k: nat)
    requires Sized(w, st.marks) && |ds| == |st.marks| && x < |st.marks| && st.marks[x].matchingIndex < |st.marks|
    requires st.marks[st.marks[x].matchingIndex].matchingIndex == x
    requires ListReady(st.marks, list) && k <= |list| && NoFit(w, ds, st.marks, x, list, k)
    ensures ListReady(st.marks, list[k..])
    ensures var swap := FindSwap(w, st.marks, x, list[k..]);
            (swap.NoSwap? || (swap.i < |ds| && st.marks[swap.i].matchingIndex < |ds|))
            && Handled(w, ds, st, ApplySwap(ds, st, x, swap), x, list)
    decreases |list| - k
  {
    assert forall l :: l in list[k..] ==> l in list;
    if k < |list| {
      assert list[k] in list && list[k..][0] == list[k] && list[k..][1..] == list[k + 1..];
      TryOneFits(w, ds, st, x, list[k]);
      if TryOne(w, st.marks, x, list[k]).NoSwap? {
        FindSwapFrom(w, ds, st, x, list, k + 1);
      }
    }
  }

  /** `x` is handled with the list of its own parity placement. */
  ghost predicate InTurn(w: Costs, ds: seq<Dist>, st: State, st': State, x: nat) {
    && x < |ds|
    && Handled(w, ds, st, st', x, if ds[x].parity in st.zeroMap then st.zeroMap[ds[x].parity] else [])
  }

  lemma OneInTurn(w: Costs, ds: seq<Dist>, st: State, x: nat)
    requires Inv(w, ds, st, [x])
    ensures InTurn(w, ds, st, OptimizeOne(w, ds, st, x), x)
  {
    CandidateHead(w, ds, st, x);
    assert [x][0] == x && Candidate(ds, st.marks, [x][0]) && MarkedPair(w, st.marks, x);
    if ds[x].parity in st.zeroMap {
      var list := st.zeroMap[ds[x].parity];
      ListIsReady(w, ds, st, ds[x].parity, [x]);
      FindSwapFrom(w, ds, st, x, list, 0);
      assert list[0..] == list;
    }
  }

  /** The optimiser's states, one after every candidate. */
  ghost predicate Pass(w: Costs, ds: seq<Dist>, states: seq<State>, cands: seq<nat>) {
    && |states| == |cands| + 1
    && forall t :: 0 <= t < |cands| ==> InTurn(w, ds, states[t], states[t + 1], cands[t])
  }

  lemma PassCons(w: Costs, ds: seq<Dist>, st: State, x: nat, states: seq<State>, cands: seq<nat>)
    requires Pass(w, ds, states, cands) && InTurn(w, ds, st, states[0], x)
    ensures Pass(w, ds, [st] + states, [x] + cands)
  {
    var all, xs := [st] + states, [x] + cands;
    forall t | 0 <= t < |xs| ensures InTurn(w, ds, all[t], all[t + 1], xs[t]) {
      if t > 0 {
        assert xs[t] == cands[t - 1] && all[t] == states[t - 1] && all[t + 1] == states[t];
      }
    }
  }

  /** The whole pass: the candidates in order, each handled on what the ones before it left. */
  lemma {:induction false} CandidatesInTurn(w: Costs, ds: seq<Dist>, st: State, cands: seq<nat>)
    returns (states: seq<State>)
    requires Inv(w, ds, st, cands)
    ensures Pass(w, ds, states, cands) && states[0] == st && states[|cands|] == OptimizeAll(w, ds, st, cands)
    decreases |cands|, 1
  {
    if cands == [] {
      states := [st];
    } else {
      var rest := AfterFirst(w, ds, st, cands);
      states := [st] + rest;
    }
  }

  lemma {:induction false} AfterFirst(w: Costs, ds: seq<Dist>, st: State, cands: seq<nat>) returns (rest: seq<State>)
    requires Inv(w, ds, st, cands) && cands != []
    ensures |rest| == |cands| && Pass(w, ds, [st] + rest, cands)
    ensures rest[|rest| - 1] == OptimizeAll(w, ds, st, cands)
    decreases |cands|, 0
  {
    var x, others := cands[0], cands[1..];
    assert cands == [x] + others;
    OptimizeOneKeeps(w, ds, st, x, others);
    var next := OptimizeOne(w, ds, st, x);
    rest := CandidatesInTurn(w, ds, next, others);
    OneInTurn(w, ds, st, x);
    PassCons(w, ds, st, x, rest, others);
  }
}
