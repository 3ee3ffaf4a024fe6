/**
 The order in which the exhaustive greedy selects (src/matching_generator.cc, basic_greedy): pairs by cost,
 then by smaller index, then by larger index.  The order determines the matching.
 */
module GreedyOrder {
  import opened Stripes
  import opened Matchings
  import opened Optimizer
  import opened GreedySteps

  function Lo(p: nat, q: nat): nat {
    if p < q then p else q
  }

  function Hi(p: nat, q: nat): nat {
    if p < q then q else p
  }

  /** The pair `p, q` comes before the pair `r, s`. */
  ghost predicate Before(w: Costs, p: nat, q: nat, r: nat, s: nat)
    requires Symmetric(w) && p < |w| && q < |w| && r < |w| && s < |w|
  {
    || w[p][q] < w[r][s]
    || (w[p][q] == w[r][s] && (Lo(p, q) < Lo(r, s) || (Lo(p, q) == Lo(r, s) && Hi(p, q) < Hi(r, s))))
  }

  /** `x` is matched, and its pair comes before `p, q`. */
  ghost predicate MatchedBefore(w: Costs, ms: seq<Mark>, x: nat, p: nat, q: nat)
    requires Sized(w, ms) && x < |ms| && p < |ms| && q < |ms|
  {
    ms[x].selected && ms[x].matchingIndex < |ms| && Before(w, x, ms[x].matchingIndex, p, q)
  }

  ghost predicate Partners(ms: seq<Mark>, p: nat, q: nat)
    requires p < |ms|
  {
    ms[p].selected && ms[p].matchingIndex == q
  }

  /** `p` and `q` are matched with each other, or one of them is in a pair that comes before. */
  ghost predicate Resolved(w: Costs, ms: seq<Mark>, p: nat, q: nat)
    requires Sized(w, ms) && p < |ms| && q < |ms|
  {
    Partners(ms, p, q) || MatchedBefore(w, ms, p, p, q) || MatchedBefore(w, ms, q, p, q)
  }

  /** Among the stripes of `live`, the matching is the greedy one in this order. */
  ghost predicate IndexGreedy(w: Costs, ms: seq<Mark>, live: set<nat>)
    requires Sized(w, ms)
  {
    forall p, q :: p in live && q in live && p < q < |ms| ==> Resolved(w, ms, p, q)
  }

  // -------------------------------------------------------------------------------------------
  // The order determines the matching
  // -------------------------------------------------------------------------------------------

  lemma PartnersBoth(w: Costs, ms: seq<Mark>, p: nat, q: nat)
    requires Sized(w, ms) && Paired(w, ms) && p < |ms| && Partners(ms, p, q)
    ensures q < |ms| && p != q && Partners(ms, q, p)
  {
    assert MarkedPair(w, ms, p);
  }

  /** A pair that only one of two such matchings has leads to a pair before it that only the other has. */
  lemma {:induction false} NoDifference(w: Costs, ms: seq<Mark>, ns: seq<Mark>, p: nat, q: nat)
    requires Sized(w, ms) && Sized(w, ns) && Paired(w, ms) && Paired(w, ns)
    requires IndexGreedy(w, ms, Everyone(|w|)) && IndexGreedy(w, ns, Everyone(|w|))
    requires p < q < |w| && Partners(ms, p, q)
    ensures Partners(ns, p, q)
    decreases w[p][q], p, q
  {
    if !Partners(ns, p, q) {
      assert p in Everyone(|w|) && q in Everyone(|w|);
      assert Resolved(w, ns, p, q);
      var x := if MatchedBefore(w, ns, p, p, q) then p else q;
      var y := ns[x].matchingIndex;
      PartnersBoth(w, ns, x, y);
      PartnersBoth(w, ms, p, q);
      assert w[x][y] == w[y][x];
      if x < y {
        NoDifference(w, ns, ms, x, y);
      } else {
        NoDifference(w, ns, ms, y, x);
        PartnersBoth(w, ms, y, x);
      }
      PartnersBoth(w, ns, q, p);
    }
  }

  lemma SamePartners(w: Costs, ms: seq<Mark>, ns: seq<Mark>, p: nat)
    requires Sized(w, ms) && Sized(w, ns) && Paired(w, ms) && Paired(w, ns)
    requires IndexGreedy(w, ms, Everyone(|w|)) && IndexGreedy(w, ns, Everyone(|w|))
    requires p < |ms| && ms[p].selected
    ensures ns[p].selected && ns[p].matchingIndex == ms[p].matchingIndex && ns[p].curCost == ms[p].curCost
  {
    var q := ms[p].matchingIndex;
    PartnersBoth(w, ms, p, q);
    if p < q {
      NoDifference(w, ms, ns, p, q);
    } else {
      NoDifference(w, ms, ns, q, p);
      PartnersBoth(w, ns, q, p);
    }
    assert MarkedPair(w, ms, p) && MarkedPair(w, ns, p);
  }

  /** All stripes taken together there is only one such matching, and so only one total. */
  lemma IndexGreedyUnique(w: Costs, ms: seq<Mark>, ns: seq<Mark>)
    requires Sized(w, ms) && Sized(w, ns) && Paired(w, ms) && Paired(w, ns)
    requires IndexGreedy(w, ms, Everyone(|w|)) && IndexGreedy(w, ns, Everyone(|w|))
    ensures Mates(ms) == Mates(ns) && TotalCost(ms) == TotalCost(ns)
  {
    forall p | 0 <= p < |ms|
      ensures ms[p].selected == ns[p].selected
      ensures ms[p].selected ==> ns[p].matchingIndex == ms[p].matchingIndex && ns[p].curCost == ms[p].curCost
    {
      if ms[p].selected {
        SamePartners(w, ms, ns, p);
      } else if ns[p].selected {
        SamePartners(w, ns, ms, p);
      }
    }
    assert SelectedFirsts(ms) == SelectedFirsts(ns);
    SetSumSame(SelectedFirsts(ms), CurCosts(ms), CurCosts(ns));
  }

  // -------------------------------------------------------------------------------------------
  // Sorted levels
  // -------------------------------------------------------------------------------------------

  ghost predicate Ahead(p: (nat, nat), i: nat, j: nat) {
    p.0 < i || (p.0 == i && p.1 < j)
  }

  ghost predicate LevelSorted(level: Pairs) {
    forall s, t :: 0 <= s < t < |level| ==> Ahead(level[s], level[t].0, level[t].1)
  }

  /** Every level lists its pairs in index order, and all of them are ahead of `(i, j)`. */
  ghost predicate LevelsSorted(levels: seq<Pairs>, i: nat, j: nat) {
    forall cost :: 0 <= cost < |levels| ==> LevelSorted(levels[cost]) && AllAhead(levels[cost], i, j)
  }

  ghost predicate AllAhead(level: Pairs, i: nat, j: nat) {
    forall t :: 0 <= t < |level| ==> Ahead(level[t], i, j)
  }

  lemma PushKeepsSorted(levels: seq<Pairs>, cost: nat, i: nat, j: nat)
    requires cost < |levels| && LevelsSorted(levels, i, j)
    ensures LevelsSorted(levels[cost := levels[cost] + [(i, j)]], i, j + 1)
  {
    var level := levels[cost];
    assert LevelSorted(level) && AllAhead(level, i, j);
    assert LevelSorted(level + [(i, j)]);
    forall d | 0 <= d < |levels| ensures AllAhead(levels[d], i, j + 1) {
      assert AllAhead(levels[d], i, j);
    }
  }

  lemma SortedLater(levels: seq<Pairs>, i: nat, j: nat, i': nat, j': nat)
    requires LevelsSorted(levels, i, j) && (i < i' || (i == i' && j <= j'))
    ensures LevelsSorted(levels, i', j')
  {
    forall d | 0 <= d < |levels| ensures AllAhead(levels[d], i', j') {
      assert AllAhead(levels[d], i, j);
    }
  }

  // -------------------------------------------------------------------------------------------
  // The selections
  // -------------------------------------------------------------------------------------------

  /** Selected stripes keep their marks. */
  ghost predicate Extends(first: seq<Mark>, ms: seq<Mark>) {
    |first| == |ms| && forall p :: 0 <= p < |ms| && first[p].selected ==> ms[p] == first[p]
  }

  /** The pair has had its turn: it is in a lower level, or in this level among the first `t`. */
  ghost predicate Reached(w: Costs, level: Pairs, cost: nat, t: nat, p: nat, q: nat)
    requires Symmetric(w) && p < |w| && q < |w| && t <= |level|
  {
    w[p][q] < cost || (w[p][q] == cost && (Lo(p, q), Hi(p, q)) in level[..t])
  }

  /** Before the `t`-th pair of a level is looked at. */
  ghost predicate InOrder(w: Costs, first: seq<Mark>, ms: seq<Mark>, level: Pairs, cost: nat, t: nat)
    requires Sized(w, ms) && t <= |level|
  {
    && Extends(first, ms)
    && (forall p, q ::
          (p in Unselected(first) && q in Unselected(first) && p < q < |ms| && Reached(w, level, cost, t, p, q))
          ==> Resolved(w, ms, p, q))
    && (forall p :: p in Unselected(first) && ms[p].selected ==> HadTurn(w, first, ms, level, cost, t, p))
  }

  ghost predicate HadTurn(w: Costs, first: seq<Mark>, ms: seq<Mark>, level: Pairs, cost: nat, t: nat, p: nat)
    requires Sized(w, ms) && t <= |level| && p < |ms|
  {
    var q := ms[p].matchingIndex;
    q < |ms| && q != p && q in Unselected(first) && Reached(w, level, cost, t, p, q)
  }

  /** A level as `basic_greedy` builds it. */
  ghost predicate LevelReady(w: Costs, live: set<nat>, level: Pairs, cost: nat)
    requires Symmetric(w)
  {
    && LevelOk(w, live, level, cost) && LevelSorted(level)
    && (forall p, q :: 0 <= p < q < |w| && p in live && q in live && w[p][q] == cost ==> (p, q) in level)
  }

  lemma StillResolved(w: Costs, ms: seq<Mark>, ns: seq<Mark>, p: nat, q: nat)
    requires Sized(w, ms) && Sized(w, ns) && Extends(ms, ns) && p < |ms| && q < |ms| && Resolved(w, ms, p, q)
    ensures Resolved(w, ns, p, q)
  {
  }

  lemma TakeNext(level: Pairs, t: nat)
    requires t < |level|
    ensures level[..t + 1] == level[..t] + [level[t]]
  {
  }

  lemma TakenMember(level: Pairs, t: nat, u: nat)
    requires t <= |level| && u < |level|
    ensures u < t ==> level[u] in level[..t]
  {
    if u < t {
      assert level[..t][u] == level[u];
    }
  }

  lemma LevelIsReady(w: Costs, live: set<nat>, levels: seq<Pairs>, cost: nat)
    requires Symmetric(w) && LevelsOk(w, live, levels, |w|, 0) && LevelsSorted(levels, |w|, 0) && cost < |levels|
    ensures LevelReady(w, live, levels[cost], cost)
  {
    forall p, q | 0 <= p < q < |w| && p in live && q in live && w[p][q] == cost ensures (p, q) in levels[cost] {
      assert Leveled(w, levels, p, q);
    }
  }

  /** Before anything has been selected. */
  lemma StartInOrder(w: Costs, first: seq<Mark>, level: Pairs)
    requires Sized(w, first)
    ensures InOrder(w, first, first, level, 0, 0)
  {
  }

  /** Between two levels, or finished. */
  ghost predicate AtLevel(w: Costs, first: seq<Mark>, ms: seq<Mark>, cost: nat, num: nat)
    requires Sized(w, ms)
  {
    && Extends(first, ms)
    && if num == 0 then IndexGreedy(w, ms, Unselected(first)) else InOrder(w, first, ms, [], cost, 0)
  }

  /** Selecting the `t`-th pair. */
  lemma SelectInOrder(w: Costs, first: seq<Mark>, ms: seq<Mark>, level: Pairs, cost: nat, t: nat, i: nat, j: nat)
    requires Sized(w, ms) && t < |level| && InOrder(w, first, ms, level, cost, t) && LevelReady(w, Unselected(first), level, cost)
    requires level[t] == (i, j) && i < j < |ms| && !ms[i].selected && !ms[j].selected
    ensures InOrder(w, first, MarkPair(ms, i, j, cost), level, cost, t + 1)
  {
    var ns := MarkPair(ms, i, j, cost);
    TakeNext(level, t);
    assert Extends(ms, ns);
    assert i in Unselected(first) && j in Unselected(first) && w[i][j] == cost;
    forall p, q | p in Unselected(first) && q in Unselected(first) && p < q < |ms| && Reached(w, level, cost, t + 1, p, q)
      ensures Resolved(w, ns, p, q)
    {
      if Reached(w, level, cost, t, p, q) {
        StillResolved(w, ms, ns, p, q);
      }
    }
    forall p | p in Unselected(first) && ns[p].selected ensures HadTurn(w, first, ns, level, cost, t + 1, p) {
      if p != i && p != j {
        assert HadTurn(w, first, ms, level, cost, t, p);
      } else {
        assert w[i][j] == w[j][i];
      }
    }
  }

  /** What had its turn before the `t`-th pair comes before any pair that has not. */
  lemma TurnsInOrder(w: Costs, first: seq<Mark>, ms: seq<Mark>, level: Pairs, cost: nat, t: nat, x: nat, p: nat, q: nat)
    requires Sized(w, ms) && t <= |level| && InOrder(w, first, ms, level, cost, t) && LevelReady(w, Unselected(first), level, cost)
    requires p < q < |ms| && p in Unselected(first) && q in Unselected(first) && !Reached(w, level, cost, t, p, q)
    requires (x == p || x == q) && ms[x].selected
    ensures MatchedBefore(w, ms, x, p, q)
  {
    assert HadTurn(w, first, ms, level, cost, t, x);
    var y := ms[x].matchingIndex;
    if w[p][q] == cost && w[x][y] == cost {
      var s :| 0 <= s < t && level[..t][s] == (Lo(x, y), Hi(x, y));
      var u :| 0 <= u < |level| && level[u] == (p, q);
      TakenMember(level, t, u);
      assert Ahead(level[s], level[u].0, level[u].1);
    }
  }

  /** Passing over the `t`-th pair. */
  lemma SkipInOrder(w: Costs, first: seq<Mark>, ms: seq<Mark>, level: Pairs, cost: nat, t: nat, i: nat, j: nat)
    requires Sized(w, ms) && t < |level| && InOrder(w, first, ms, level, cost, t) && LevelReady(w, Unselected(first), level, cost)
    requires level[t] == (i, j) && i < j < |ms| && (ms[i].selected || ms[j].selected)
    ensures InOrder(w, first, ms, level, cost, t + 1)
  {
    TakeNext(level, t);
    forall p, q | p in Unselected(first) && q in Unselected(first) && p < q < |ms| && Reached(w, level, cost, t + 1, p, q)
      ensures Resolved(w, ms, p, q)
    {
      if !Reached(w, level, cost, t, p, q) {
        assert (p, q) == (i, j);
        TurnsInOrder(w, first, ms, level, cost, t, if ms[i].selected then i else j, i, j);
      }
    }
    forall p | p in Unselected(first) && ms[p].selected ensures HadTurn(w, first, ms, level, cost, t + 1, p) {
      assert HadTurn(w, first, ms, level, cost, t, p);
    }
  }

  /** Within a level, before its `t`-th pair. */
  ghost predicate Selecting(w: Costs, ds: seq<Dist>, st: State, cands: seq<nat>, first: seq<Mark>, flag: seq<bool>, num: nat,
                            level: Pairs, cost: nat, t: nat)
  {
    && GreedyInv(w, ds, st, cands, Unselected(first), flag, num) && Floor(w, st.marks, cost)
    && LevelReady(w, Unselected(first), level, cost) && t <= |level|
    && InOrder(w, first, st.marks, level, cost, t) && Covered(st.marks, level, t)
  }

  /** The pair at `t`, and what the flags say of it. */
  lemma PairOfLevel(w: Costs, ds: seq<Dist>, st: State, cands: seq<nat>, first: seq<Mark>, flag: seq<bool>, num: nat,
                    level: Pairs, cost: nat, t: nat)
    requires Selecting(w, ds, st, cands, first, flag, num, level, cost, t) && t < |level|
    ensures var (i, j) := level[t];
            && i < j < |w| == |flag| == |st.marks| && i in Unselected(first) && j in Unselected(first) && w[i][j] == cost
            && (flag[i] <==> st.marks[i].selected) && (flag[j] <==> st.marks[j].selected)
  {
  }

  lemma TakePair(w: Costs, ds: seq<Dist>, st: State, cands: seq<nat>, first: seq<Mark>, flag: seq<bool>, num: nat,
                 level: Pairs, cost: nat, t: nat, i: nat, j: nat)
    requires Selecting(w, ds, st, cands, first, flag, num, level, cost, t) && t < |level| && level[t] == (i, j)
    requires i < |flag| && j < |flag| && !flag[i] && !flag[j]
    ensures num > 0 && i < |st.marks| && j < |st.marks|
    ensures var st' := State(MarkPair(st.marks, i, j, cost), st.zeroMap);
            && Selecting(w, ds, st', cands, first, flag[i := true][j := true], num - 1, level, cost, t + 1)
            && TotalCost(st'.marks) == TotalCost(st.marks) + cost
  {
    PairOfLevel(w, ds, st, cands, first, flag, num, level, cost, t);
    GreedySelect(w, ds, st, cands, Unselected(first), flag, num, i, j, cost);
    SelectInOrder(w, first, st.marks, level, cost, t, i, j);
    SelectShrinks(st.marks, i, j, cost);
    CoverOne(st.marks, MarkPair(st.marks, i, j, cost), level, t);
  }

  lemma SkipPair(w: Costs, ds: seq<Dist>, st: State, cands: seq<nat>, first: seq<Mark>, flag: seq<bool>, num: nat,
                 level: Pairs, cost: nat, t: nat, i: nat, j: nat)
    requires Selecting(w, ds, st, cands, first, flag, num, level, cost, t) && t < |level| && level[t] == (i, j)
    requires i < |flag| && j < |flag| && (flag[i] || flag[j])
    ensures Selecting(w, ds, st, cands, first, flag, num, level, cost, t + 1)
  {
    PairOfLevel(w, ds, st, cands, first, flag, num, level, cost, t);
    SkipInOrder(w, first, st.marks, level, cost, t, i, j);
    CoverOne(st.marks, st.marks, level, t);
  }

  /** From the end of one level to the start of the next. */
  lemma NextLevel(w: Costs, first: seq<Mark>, ms: seq<Mark>, level: Pairs, cost: nat, next: Pairs)
    requires Sized(w, ms) && InOrder(w, first, ms, level, cost, |level|) && LevelReady(w, Unselected(first), level, cost)
    ensures InOrder(w, first, ms, next, cost + 1, 0)
  {
    assert level[..|level|] == level;
    forall p, q | p in Unselected(first) && q in Unselected(first) && p < q < |ms| && Reached(w, next, cost + 1, 0, p, q)
      ensures Resolved(w, ms, p, q)
    {
      assert Reached(w, level, cost, |level|, p, q);
    }
    forall p | p in Unselected(first) && ms[p].selected ensures HadTurn(w, first, ms, next, cost + 1, 0, p) {
      assert HadTurn(w, first, ms, level, cost, |level|, p);
    }
  }

  /** When at most one stripe is left, the rest of the pairs need not be looked at. */
  lemma EndInOrder(w: Costs, first: seq<Mark>, ms: seq<Mark>, level: Pairs, cost: nat, t: nat)
    requires Sized(w, ms) && t <= |level| && InOrder(w, first, ms, level, cost, t) && LevelReady(w, Unselected(first), level, cost)
    requires |Unselected(ms)| <= 1
    ensures IndexGreedy(w, ms, Unselected(first))
  {
    forall p, q | p in Unselected(first) && q in Unselected(first) && p < q < |ms| ensures Resolved(w, ms, p, q) {
      if !Reached(w, level, cost, t, p, q) {
        NotBothUnselected(ms, p, q);
        TurnsInOrder(w, first, ms, level, cost, t, if ms[p].selected then p else q, p, q);
      }
    }
  }

  /** Above the highest cost every pair has had its turn. */
  lemma AllInOrder(w: Costs, first: seq<Mark>, ms: seq<Mark>, level: Pairs, cost: nat)
    requires Sized(w, ms) && InOrder(w, first, ms, level, cost + 1, 0) && CostsAtMost(w, cost)
    ensures IndexGreedy(w, ms, Unselected(first))
  {
    forall p, q | p in Unselected(first) && q in Unselected(first) && p < q < |ms| ensures Resolved(w, ms, p, q) {
      assert Reached(w, level, cost + 1, 0, p, q);
    }
  }

  /** Before the first level. */
  lemma StartLevels(w: Costs, ds: seq<Dist>, st: State, cands: seq<nat>, flag: seq<bool>, num: nat)
    requires Inv(w, ds, st, cands) && Guarded(w, st.marks) && |Unselected(st.marks)| <= 2 * num + 1
    requires flag == NoFlags(|st.marks|)
    ensures BetweenLevels(w, ds, st, cands, st.marks, flag, num, 0)
  {
    StartInOrder(w, st.marks, []);
    if num == 0 {
      OnlyOne(Unselected(st.marks));
    }
  }

  lemma OnlyOne(s: set<nat>)
    requires |s| <= 1
    ensures forall p, q :: p in s && q in s ==> p == q
  {
    if p :| p in s {
      assert |s - {p}| == 0;
      assert forall q :: q in s ==> q == p || q in s - {p};
    }
  }

  /** Between two levels, or finished. */
  ghost predicate BetweenLevels(w: Costs, ds: seq<Dist>, st: State, cands: seq<nat>, first: seq<Mark>, flag: seq<bool>,
                                num: nat, cost: nat)
  {
    && GreedyInv(w, ds, st, cands, Unselected(first), flag, num) && Floor(w, st.marks, cost)
    && AtLevel(w, first, st.marks, cost, num)
  }

  lemma EnterLevel(w: Costs, ds: seq<Dist>, st: State, cands: seq<nat>, first: seq<Mark>, flag: seq<bool>, num: nat,
                   levels: seq<Pairs>, cost: nat)
    requires BetweenLevels(w, ds, st, cands, first, flag, num, cost) && num > 0 && cost < |levels|
    requires LevelsOk(w, Unselected(first), levels, |w|, 0) && LevelsSorted(levels, |w|, 0)
    ensures Selecting(w, ds, st, cands, first, flag, num, levels[cost], cost, 0)
  {
    LevelIsReady(w, Unselected(first), levels, cost);
    FirstTurn(w, first, st.marks, levels[cost], cost);
  }

  lemma FirstTurn(w: Costs, first: seq<Mark>, ms: seq<Mark>, level: Pairs, cost: nat)
    requires Sized(w, ms) && InOrder(w, first, ms, [], cost, 0)
    ensures InOrder(w, first, ms, level, cost, 0)
  {
    forall p, q | p in Unselected(first) && q in Unselected(first) && p < q < |ms| && Reached(w, level, cost, 0, p, q)
      ensures Resolved(w, ms, p, q)
    {
      assert Reached(w, [], cost, 0, p, q);
    }
    forall p | p in Unselected(first) && ms[p].selected ensures HadTurn(w, first, ms, level, cost, 0, p) {
      assert HadTurn(w, first, ms, [], cost, 0, p);
    }
  }

  /** After a level: on to the next one, or finished if nothing is left to select. */
  lemma LeaveLevel(w: Costs, ds: seq<Dist>, st: State, cands: seq<nat>, first: seq<Mark>, flag: seq<bool>, num: nat,
                   levels: seq<Pairs>, cost: nat, t: nat)
    requires cost < |levels| && Selecting(w, ds, st, cands, first, flag, num, levels[cost], cost, t)
    requires LevelsOk(w, Unselected(first), levels, |w|, 0) && (num > 0 ==> t == |levels[cost]|)
    ensures BetweenLevels(w, ds, st, cands, first, flag, num, cost + 1)
  {
    LevelDone(w, st.marks, Unselected(first), levels, cost);
    if num == 0 {
      EndInOrder(w, first, st.marks, levels[cost], cost, t);
    } else {
      NextLevel(w, first, st.marks, levels[cost], cost, []);
    }
  }

  /** After the last level, or when nothing is left to select. */
  lemma GreedyEnds(w: Costs, ds: seq<Dist>, st: State, cands: seq<nat>, first: seq<Mark>, flag: seq<bool>, num: nat, cost: nat)
    requires BetweenLevels(w, ds, st, cands, first, flag, num, cost + 1) && CostsAtMost(w, cost)
    ensures Stable(w, st.marks) && Extends(first, st.marks) && IndexGreedy(w, st.marks, Unselected(first))
  {
    if num > 0 {
      AlmostEveryoneSelected(w, st.marks, cost);
      AllInOrder(w, first, st.marks, [], cost);
    }
    GuardedIsStable(w, st.marks);
  }

  lemma GreedyEndsEarly(w: Costs, ds: seq<Dist>, st: State, cands: seq<nat>, first: seq<Mark>, flag: seq<bool>, cost: nat)
    requires BetweenLevels(w, ds, st, cands, first, flag, 0, cost)
    ensures Stable(w, st.marks) && Extends(first, st.marks) && IndexGreedy(w, st.marks, Unselected(first))
  {
    GuardedIsStable(w, st.marks);
  }
}
