/**
 The steps of the indexed search as statements about marks and index: what searching one list, all
 masks, one stripe and one round establishes (src/matching_generator.cc, single_search,
 search_for_matching and dist_based_search).
 */
module SearchSteps {
  import opened BitTricks
  import opened Stripes
  import opened Keys
  import opened Matchings
  import opened CostTable
  import opened SearchIndex
  import opened Optimizer
  import opened Bookkeeping

  /** `int` in the bit trick. */
  const INT_WIDTH: nat := 32

  // -------------------------------------------------------------------------------------------
  // Tentative candidates
  // -------------------------------------------------------------------------------------------

  /** A cached candidate is absent or carries its true cost. */
  ghost predicate Cached(w: Costs, ms: seq<Mark>, p: nat)
    requires Sized(w, ms) && p < |ms|
  {
    var q := ms[p].matchingIndex;
    ms[p].curCost == NO_COST || (q < |ms| && q != p && ms[p].curCost == w[p][q])
  }

  /** A search found an unselected partner of exactly the target cost. */
  ghost predicate Hit(w: Costs, ms: seq<Mark>, p: nat, target: nat)
    requires Sized(w, ms) && p < |ms|
  {
    var q := ms[p].matchingIndex;
    && q < |ms| && q != p && !ms[p].selected && !ms[q].selected
    && ms[p].curCost == target == w[p][q]
  }

  /** Only the tentative candidate of the unselected stripe `p` may differ. */
  ghost predicate OnlyTentative(ms: seq<Mark>, ns: seq<Mark>, p: nat) {
    && |ms| == |ns| && p < |ms| && !ms[p].selected && !ns[p].selected
    && forall q :: 0 <= q < |ms| && q != p ==> ns[q] == ms[q]
  }

  lemma TentativeKeeps(w: Costs, ms: seq<Mark>, ns: seq<Mark>, p: nat)
    requires Sized(w, ms) && OnlyTentative(ms, ns, p)
    ensures Unselected(ns) == Unselected(ms)
    ensures Paired(w, ms) ==> Paired(w, ns)
    ensures Guarded(w, ms) ==> Guarded(w, ns)
    ensures forall c :: Floor(w, ms, c) ==> Floor(w, ns, c)
  {
    if Paired(w, ms) {
      forall q | 0 <= q < |ns| && ns[q].selected ensures MarkedPair(w, ns, q) {
        assert MarkedPair(w, ms, q);
      }
    }
    if Guarded(w, ms) {
      forall q, r | 0 <= q < |ns| && 0 <= r < |ns| && q != r ensures GuardedPair(w, ns, q, r) {
        assert GuardedPair(w, ms, q, r);
      }
    }
  }

  /** The optimiser's bookkeeping does not look at unselected stripes. */
  lemma TentativeKeepsInv(w: Costs, ds: seq<Dist>, ms: seq<Mark>, ns: seq<Mark>, p: nat, z: ZeroMap, cands: seq<nat>)
    requires Inv(w, ds, State(ms, z), cands) && OnlyTentative(ms, ns, p)
    ensures Inv(w, ds, State(ns, z), cands)
  {
    TentativeKeeps(w, ms, ns, p);
    forall pd | pd in z ensures ZeroList(ds, ns, pd, z[pd]) {
      var list := z[pd];
      assert ZeroList(ds, ms, pd, list);
      forall s | 0 <= s < |list| ensures ZeroEntry(ds, ns, pd, list[s]) && ns[list[s]] == ms[list[s]] {
        assert ZeroEntry(ds, ms, pd, list[s]);
      }
      forall s, t | 0 <= s < |list| && 0 <= t < |list| && s != t ensures Apart(ns, list[s], list[t]) {
        assert Apart(ms, list[s], list[t]);
      }
    }
    forall s | 0 <= s < |cands| ensures Candidate(ds, ns, cands[s]) && ns[cands[s]] == ms[cands[s]] {
      assert Candidate(ds, ms, cands[s]);
    }
    forall s, t | 0 <= s < |cands| && 0 <= t < |cands| && s != t ensures Apart(ns, cands[s], cands[t]) {
      assert Apart(ms, cands[s], cands[t]);
    }
  }

  lemma CostMatrixIsPrices(c: Params, ds: seq<Dist>)
    requires AllPlaced(c, ds)
    ensures Prices(c, ds, CostMatrix(c, ds))
    ensures CostsAtMost(CostMatrix(c, ds), c.k + c.m)
    ensures FreeMeansAligned(CostMatrix(c, ds), ds)
  {
    var w := CostMatrix(c, ds);
    CostMatrixSymmetric(c, ds);
    CostMatrixBounded(c, ds);
    forall p, q | 0 <= p < |w| && 0 <= q < |w|
      ensures w[p][q] == PairCost(c, ds, p, q)
      ensures w[p][q] == 0 ==> ds[p].parity == ds[q].parity
    {
      CostMatrixAt(c, ds, p, q);
      PairCostFacts(c, ds, p, q);
    }
  }

  /** The best partner of `index` among `seen`, if it beats the tentative candidate. */
  ghost predicate Best(w: Costs, ms: seq<Mark>, index: nat, seen: seq<nat>, minCost: nat, minIndex: nat)
    requires Sized(w, ms) && index < |w|
  {
    && (forall x :: x in seen && x < |w| && x != index && !ms[x].selected ==> w[index][x] >= minCost)
    && minCost <= ms[index].curCost
    && (minCost < ms[index].curCost ==>
          minIndex in seen && minIndex < |w| && minIndex != index && !ms[minIndex].selected
          && w[index][minIndex] == minCost)
  }

  ghost predicate SelectedOf(ms: seq<Mark>, seen: seq<nat>, queue: seq<nat>) {
    forall x :: x in queue <==> x in seen && x < |ms| && ms[x].selected
  }

  /** The outcome of searching one list: a partner of the target cost, or the certainty that the list
      has none.  `gone` leaves the list: selected stripes, and the two new partners. */
  ghost predicate ListSearched(w: Costs, ms: seq<Mark>, index: nat, target: nat, domain: seq<nat>, gone: set<nat>,
                               found: bool)
    requires Sized(w, ms) && index < |w|
  {
    var peer := ms[index].matchingIndex;
    && (found ==> Hit(w, ms, index, target) && peer in domain && peer in gone)
    && (!found ==> target < ms[index].curCost && Cached(w, ms, index))
    && (!found ==> forall x :: x in domain && x < |w| && x != index && !ms[x].selected ==> w[index][x] > target)
    && (forall x :: x in gone ==>
          x in domain && x < |w| && (ms[x].selected || (found && (x == index || x == peer))))
    && (!found ==> forall x :: x in domain && x < |w| && ms[x].selected ==> x in gone)
  }

  lemma ScanMeans(w: Costs, ms: seq<Mark>, ns: seq<Mark>, index: nat, target: nat, domain: seq<nat>, seen: seq<nat>,
                  minCost: nat, minIndex: nat, queue: seq<nat>, gone: set<nat>)
    requires Sized(w, ms) && index < |ms| && !ms[index].selected && target < ms[index].curCost
    requires Cached(w, ms, index) && Floor(w, ms, target)
    requires forall x :: x in domain ==> x < |ms|
    requires seen <= domain && (minCost != target ==> seen == domain)
    requires Best(w, ms, index, seen, minCost, minIndex) && SelectedOf(ms, seen, queue)
    requires ns == if minCost < ms[index].curCost then ms[index := Mark(minIndex, minCost, false)] else ms
    requires SetOf(queue) <= gone
    requires gone <= SetOf(queue) + if minCost == target then {minIndex} + (if index in seen then {index} else {}) else {}
    requires minCost == target ==> minIndex in gone
    ensures OnlyTentative(ms, ns, index)
    ensures ListSearched(w, ns, index, target, domain, gone, minCost == target)
  {
    assert forall x :: x in seen ==> x in domain;
    if minCost < ms[index].curCost {
      assert w[index][minIndex] >= target;
    }
  }

  /** The stripes that are still to be matched once a search has returned. */
  ghost function LiveAfter(ms: seq<Mark>, index: nat, found: bool): set<nat>
    requires index < |ms|
  {
    if found then Unselected(ms) - {index, ms[index].matchingIndex} else Unselected(ms)
  }

  /** The outcome of a search over some lists for a partner of the target cost. */
  ghost predicate Searched(w: Costs, ms: seq<Mark>, index: nat, target: nat, found: bool)
    requires Sized(w, ms) && index < |w|
  {
    if found then Hit(w, ms, index, target) else target < ms[index].curCost && Cached(w, ms, index)
  }

  /** Searching the list of a mask's key settles that mask. */
  lemma MaskSearched(c: Params, ds: seq<Dist>, w: Costs, ms: seq<Mark>, parityMap: Lists, partialMap: Lists,
                     index: nat, target: nat, mask: nat, key: seq<nat>, gone: set<nat>, found: bool)
    requires Prices(c, ds, w) && Sized(w, ms) && index < |w| && !ms[index].selected
    requires IndexOk(c.m, ds, parityMap, partialMap, Unselected(ms))
    requires 1 <= mask < Pow2(c.m) && key == PartialKey(ds[index].parity, mask) && key in partialMap
    requires ListSearched(w, ms, index, target, partialMap[key], gone, found)
    ensures IndexOk(c.m, ds, parityMap, partialMap[key := Without(partialMap[key], gone)], LiveAfter(ms, index, found))
    ensures !found ==> MaskDone(w, ds, Unselected(ms), index, target, mask)
  {
    var live := LiveAfter(ms, index, found);
    FewerLive(c.m, ds, parityMap, partialMap, Unselected(ms), live);
    ShrinkPartialList(c.m, ds, parityMap, partialMap, live, key, gone);
    if !found {
      forall q | q in Unselected(ms) && q != index && PartialKey(ds[q].parity, mask) == key
        ensures w[index][q] > target
      {
        assert Listed(partialMap, PartialKey(ds[q].parity, mask), q);
      }
    }
  }

  /** A list of one stripe has no partner for it. */
  lemma ShortList(c: Params, ds: seq<Dist>, w: Costs, ms: seq<Mark>, parityMap: Lists, partialMap: Lists,
                  index: nat, target: nat, mask: nat)
    requires Prices(c, ds, w) && Sized(w, ms) && index < |w| && !ms[index].selected
    requires IndexOk(c.m, ds, parityMap, partialMap, Unselected(ms)) && 1 <= mask < Pow2(c.m)
    requires var key := PartialKey(ds[index].parity, mask); key !in partialMap || |partialMap[key]| <= 1
    ensures MaskDone(w, ds, Unselected(ms), index, target, mask)
  {
    var key := PartialKey(ds[index].parity, mask);
    assert Listed(partialMap, key, index);
    forall q | q in Unselected(ms) && PartialKey(ds[q].parity, mask) == key ensures q == index {
      assert Listed(partialMap, PartialKey(ds[q].parity, mask), q);
    }
  }

  /** Searching the parity list settles cost zero. */
  lemma ParitySearched(c: Params, ds: seq<Dist>, w: Costs, ms: seq<Mark>, parityMap: Lists, partialMap: Lists,
                       index: nat, pd: seq<nat>, gone: set<nat>, found: bool)
    requires Prices(c, ds, w) && FreeMeansAligned(w, ds) && Sized(w, ms) && index < |w| && !ms[index].selected
    requires IndexOk(c.m, ds, parityMap, partialMap, Unselected(ms))
    requires pd == ds[index].parity && pd in parityMap
    requires ListSearched(w, ms, index, 0, parityMap[pd], gone, found)
    ensures IndexOk(c.m, ds, parityMap[pd := Without(parityMap[pd], gone)], partialMap, LiveAfter(ms, index, found))
    ensures !found ==> AllAbove(w, Unselected(ms), index, 0)
  {
    var live := LiveAfter(ms, index, found);
    FewerLive(c.m, ds, parityMap, partialMap, Unselected(ms), live);
    ShrinkParityList(c.m, ds, parityMap, partialMap, live, pd, gone);
    if !found {
      forall q | q in Unselected(ms) && q != index ensures w[index][q] > 0 {
        assert Listed(parityMap, ds[q].parity, q);
      }
    }
  }

  lemma ShortParityList(c: Params, ds: seq<Dist>, w: Costs, ms: seq<Mark>, parityMap: Lists, partialMap: Lists, index: nat)
    requires FreeMeansAligned(w, ds) && Sized(w, ms) && index < |w| && !ms[index].selected
    requires IndexOk(c.m, ds, parityMap, partialMap, Unselected(ms))
    requires ds[index].parity in parityMap ==> |parityMap[ds[index].parity]| <= 1
    ensures AllAbove(w, Unselected(ms), index, 0)
  {
    assert Listed(parityMap, ds[index].parity, index);
    forall q | q in Unselected(ms) && q != index ensures w[index][q] > 0 {
      assert Listed(parityMap, ds[q].parity, q);
    }
  }

  lemma OnlyTentativeTrans(ms: seq<Mark>, ns: seq<Mark>, os: seq<Mark>, p: nat)
    requires OnlyTentative(ms, ns, p) && OnlyTentative(ns, os, p)
    ensures OnlyTentative(ms, os, p)
  {
  }

  /** The masks below `comb` with `k` one bits are done. */
  ghost predicate MasksDone(m: nat, k: nat, ds: seq<Dist>, w: Costs, live: set<nat>, index: nat, target: nat, comb: nat)
    requires Symmetric(w) && |ds| == |w| && Indices(live, |w|) && index < |w|
  {
    forall mask: nat :: mask < comb && mask < Pow2(m) && Pop(mask) == k ==> MaskDone(w, ds, live, index, target, mask)
  }

  /** One more mask, and the step to the next one skips none. */
  lemma NextMaskDone(m: nat, k: nat, ds: seq<Dist>, w: Costs, live: set<nat>, index: nat, target: nat, comb: nat)
    requires Symmetric(w) && |ds| == |w| && Indices(live, |w|) && index < |w|
    requires 0 < comb && 2 * comb < Pow2(INT_WIDTH) && Pop(comb) == k
    requires MasksDone(m, k, ds, w, live, index, target, comb)
    requires MaskDone(w, ds, live, index, target, comb)
    ensures MasksDone(m, k, ds, w, live, index, target, NextComb(INT_WIDTH, comb))
  {
    NextCombIsSuccessor(INT_WIDTH, comb);
  }

  lemma MaskStep(m: nat, k: nat, ds: seq<Dist>, w: Costs, first: seq<Mark>, before: seq<Mark>, ms: seq<Mark>,
                 index: nat, target: nat, comb: nat, found: bool)
    requires Sized(w, first) && |ds| == |w| && OnlyTentative(first, before, index) && OnlyTentative(before, ms, index)
    requires 0 < comb && 2 * comb < Pow2(INT_WIDTH) && Pop(comb) == k
    requires MasksDone(m, k, ds, w, Unselected(before), index, target, comb)
    requires !found ==> MaskDone(w, ds, Unselected(ms), index, target, comb)
    ensures OnlyTentative(first, ms, index) && Unselected(ms) == Unselected(first)
    ensures comb < NextComb(INT_WIDTH, comb) && Pop(NextComb(INT_WIDTH, comb)) == k
    ensures !found ==> MasksDone(m, k, ds, w, Unselected(ms), index, target, NextComb(INT_WIDTH, comb))
  {
    TentativeKeeps(w, first, before, index);
    TentativeKeeps(w, before, ms, index);
    NextCombIsSuccessor(INT_WIDTH, comb);
    if !found {
      NextMaskDone(m, k, ds, w, Unselected(ms), index, target, comb);
    }
  }

  /** Between the turns of the mask loop: the masks below `comb` are done, or a partner was found. */
  ghost predicate Masked(c: Params, ds: seq<Dist>, w: Costs, first: seq<Mark>, ms: seq<Mark>, parityMap: Lists,
                         partialMap: Lists, index: nat, target: nat, comb: nat, found: bool)
  {
    && Sized(w, first) && Sized(w, ms) && |ds| == |w| && index < |w| && target < c.m
    && OnlyTentative(first, ms, index) && Floor(w, ms, target) && Searched(w, ms, index, target, found)
    && IndexOk(c.m, ds, parityMap, partialMap, LiveAfter(ms, index, found))
    && 1 <= comb && Pop(comb) == c.m - target
    && (!found ==> MasksDone(c.m, c.m - target, ds, w, Unselected(ms), index, target, comb))
  }

  /** One turn of the mask loop. */
  lemma MaskTurn(c: Params, ds: seq<Dist>, w: Costs, first: seq<Mark>, before: seq<Mark>, ms: seq<Mark>, parityMap: Lists,
                 partialMap: Lists, partialMap': Lists, index: nat, target: nat, comb: nat, found: bool)
    requires Masked(c, ds, w, first, before, parityMap, partialMap, index, target, comb, false)
    requires 2 * comb < Pow2(INT_WIDTH) && Sized(w, ms) && OnlyTentative(before, ms, index)
    requires Searched(w, ms, index, target, found)
    requires IndexOk(c.m, ds, parityMap, partialMap', LiveAfter(ms, index, found))
    requires !found ==> MaskDone(w, ds, Unselected(ms), index, target, comb)
    ensures comb < NextComb(INT_WIDTH, comb)
    ensures Masked(c, ds, w, first, ms, parityMap, partialMap', index, target, NextComb(INT_WIDTH, comb), found)
  {
    MaskStep(c.m, c.m - target, ds, w, first, before, ms, index, target, comb, found);
    TentativeKeeps(w, before, ms, index);
  }

  /** Before the first turn. */
  lemma StartMasks(c: Params, ds: seq<Dist>, w: Costs, ms: seq<Mark>, parityMap: Lists, partialMap: Lists,
                   index: nat, target: nat)
    requires Sized(w, ms) && |ds| == |w| && index < |w| && 1 <= target < c.m
    requires !ms[index].selected && Floor(w, ms, target) && Searched(w, ms, index, target, false)
    requires IndexOk(c.m, ds, parityMap, partialMap, Unselected(ms))
    ensures Pow2(c.m - target) - 1 >= 1
    ensures Masked(c, ds, w, ms, ms, parityMap, partialMap, index, target, Pow2(c.m - target) - 1, false)
  {
    var k := c.m - target;
    FirstMask(k);
  }

  /** When the loop runs out of masks, all of them are done. */
  lemma AllMasksDone(c: Params, ds: seq<Dist>, w: Costs, live: set<nat>, index: nat, target: nat, comb: nat)
    requires Prices(c, ds, w) && Indices(live, |w|) && index < |w| && 1 <= target < c.m
    requires comb >= Pow2(c.m) - 1 && MasksDone(c.m, c.m - target, ds, w, live, index, target, comb)
    ensures AllAbove(w, live, index, target)
  {
    forall mask: nat | mask < Pow2(c.m) && Pop(mask) == c.m - target
      ensures MaskDone(w, ds, live, index, target, mask)
    {
      OnlyFullMaskIsFull(c.m, mask);
    }
    MasksCoverAll(c, ds, w, live, index, target);
  }

  lemma MasksFit(m: nat)
    requires m <= 7
    ensures 2 * Pow2(m) <= Pow2(INT_WIDTH)
  {
    Pow2Mono(m + 1, INT_WIDTH);
  }

  ghost predicate AllCached(w: Costs, ms: seq<Mark>)
    requires Sized(w, ms)
  {
    forall p :: 0 <= p < |ms| && !ms[p].selected ==> Cached(w, ms, p)
  }

  /** What holds between the steps of the indexed search. */
  ghost predicate SearchInv(c: Params, ds: seq<Dist>, w: Costs, st: State, cands: seq<nat>, parityMap: Lists,
                            partialMap: Lists)
  {
    && Inv(w, ds, st, cands) && Guarded(w, st.marks) && AllCached(w, st.marks)
    && IndexOk(c.m, ds, parityMap, partialMap, Unselected(st.marks))
    && |ds| == |st.marks| && Recorded(ds, st.marks, st.zeroMap, cands, c.m)
  }

  /** What a step may do to the marks: select stripes, and change `cur`'s tentative candidate. */
  ghost predicate Stepped(ms: seq<Mark>, ns: seq<Mark>, cur: nat) {
    && |ms| == |ns| && Unselected(ns) <= Unselected(ms)
    && forall p :: 0 <= p < |ns| && !ns[p].selected && p != cur ==> ns[p] == ms[p]
  }

  /** A failed search leaves a stripe that costs more than `cost` with everyone. */
  ghost predicate Exhausted(w: Costs, ms: seq<Mark>, p: nat, cost: nat)
    requires Sized(w, ms) && p < |w|
  {
    AllAbove(w, Unselected(ms), p, cost) && ms[p].curCost > cost
  }

  /** Between the end of a search and the marking of the pair it found. */
  lemma AfterSearch(c: Params, ds: seq<Dist>, w: Costs, ms: seq<Mark>, ns: seq<Mark>, z: ZeroMap, cands: seq<nat>,
                    parityMap: Lists, partialMap: Lists, cur: nat, cost: nat)
    requires Inv(w, ds, State(ms, z), cands) && Guarded(w, ms) && AllCached(w, ms)
    requires |ds| == |ms| && Recorded(ds, ms, z, cands, c.m)
    requires OnlyTentative(ms, ns, cur) && Searched(w, ns, cur, cost, false)
    requires IndexOk(c.m, ds, parityMap, partialMap, LiveAfter(ns, cur, false))
    ensures SearchInv(c, ds, w, State(ns, z), cands, parityMap, partialMap)
  {
    TentativeKeeps(w, ms, ns, cur);
    TentativeKeepsInv(w, ds, ms, ns, cur, z, cands);
    TentativeKeepsRecorded(ds, ms, ns, z, cands, c.m);
    forall p | 0 <= p < |ns| && !ns[p].selected ensures Cached(w, ns, p) {
      assert p != cur ==> Cached(w, ms, p);
    }
  }

  lemma MarkKeepsCached(w: Costs, ms: seq<Mark>, ns: seq<Mark>, cur: nat, j: nat, cost: nat)
    requires Sized(w, ms) && AllCached(w, ms) && OnlyTentative(ms, ns, cur) && j < |ns|
    ensures AllCached(w, MarkPair(ns, cur, j, cost)) && Stepped(ms, MarkPair(ns, cur, j, cost), cur)
  {
    var os := MarkPair(ns, cur, j, cost);
    forall p | 0 <= p < |os| && !os[p].selected ensures Cached(w, os, p) && os[p] == ms[p] {
      assert Cached(w, ms, p);
    }
  }

  /** The stripes that are left after the marking. */
  lemma MarkLeaves(w: Costs, ns: seq<Mark>, cur: nat, j: nat, cost: nat)
    requires Sized(w, ns) && cur < |w| && Hit(w, ns, cur, cost) && j == ns[cur].matchingIndex
    ensures Unselected(MarkPair(ns, cur, j, cost)) == LiveAfter(ns, cur, true)
  {
    SelectShrinks(ns, cur, j, cost);
  }

  lemma MarkKeepsInv(w: Costs, ds: seq<Dist>, ns: seq<Mark>, z: ZeroMap, cands: seq<nat>, cur: nat, j: nat, cost: nat)
    requires Inv(w, ds, State(ns, z), cands) && Guarded(w, ns)
    requires cur < |w| && Floor(w, ns, cost) && Hit(w, ns, cur, cost) && j == ns[cur].matchingIndex
    ensures var os := MarkPair(ns, cur, j, cost);
            && Inv(w, ds, State(os, NoteZero(ds, z, cur, cost, true)), NoteCandidate(ds, cands, cur, j, cost, true))
            && Guarded(w, os)
  {
    SelectKeeps(w, ns, cur, j, cost);
    NoteKeeps(w, ds, State(ns, z), cands, cur, j, cost, true);
  }

  /** Marking the pair that was found. */
  lemma AfterMarking(c: Params, ds: seq<Dist>, w: Costs, ms: seq<Mark>, ns: seq<Mark>, z: ZeroMap, cands: seq<nat>,
                     parityMap: Lists, partialMap: Lists, cur: nat, j: nat, cost: nat)
    requires Inv(w, ds, State(ms, z), cands) && Guarded(w, ms) && AllCached(w, ms)
    requires |ds| == |ms| && Recorded(ds, ms, z, cands, c.m)
    requires OnlyTentative(ms, ns, cur) && Floor(w, ms, cost) && Hit(w, ns, cur, cost) && j == ns[cur].matchingIndex
    requires IndexOk(c.m, ds, parityMap, partialMap, LiveAfter(ns, cur, true))
    ensures SearchInv(c, ds, w, State(MarkPair(ns, cur, j, cost), NoteZero(ds, z, cur, cost, true)),
                      NoteCandidate(ds, cands, cur, j, cost, true), parityMap, partialMap)
    ensures Stepped(ms, MarkPair(ns, cur, j, cost), cur)
  {
    TentativeKeeps(w, ms, ns, cur);
    TentativeKeepsInv(w, ds, ms, ns, cur, z, cands);
    MarkKeepsInv(w, ds, ns, z, cands, cur, j, cost);
    MarkKeepsRecorded(w, ds, ms, ns, z, cands, c.m, cur, j, cost);
    MarkLeaves(w, ns, cur, j, cost);
    MarkKeepsCached(w, ms, ns, cur, j, cost);
  }

  // -------------------------------------------------------------------------------------------
  // One round
  // -------------------------------------------------------------------------------------------

  /** Before the stripe at position `t` of the list is handled in round `cost`. */
  ghost predicate InRound(w: Costs, ms: seq<Mark>, list: seq<nat>, t: nat, cost: nat)
    requires Sized(w, ms)
  {
    && Floor(w, ms, cost)
    && (forall p :: p in Unselected(ms) ==> p in list && ms[p].curCost >= cost)
    && (forall s :: 0 <= s < t && s < |list| && list[s] in Unselected(ms) ==> Exhausted(w, ms, list[s], cost))
  }

  lemma InRoundHead(w: Costs, ms: seq<Mark>, list: seq<nat>, t: nat, cost: nat)
    requires Sized(w, ms) && InRound(w, ms, list, t, cost) && t < |list| && list[t] < |w| && !ms[list[t]].selected
    ensures Floor(w, ms, cost) && ms[list[t]].curCost >= cost
  {
  }

  lemma RoundStep(w: Costs, ms: seq<Mark>, ns: seq<Mark>, list: seq<nat>, t: nat, cost: nat)
    requires Sized(w, ms) && Sized(w, ns) && InRound(w, ms, list, t, cost) && t < |list| && list[t] < |w|
    requires Stepped(ms, ns, list[t])
    requires ns[list[t]].selected || Exhausted(w, ns, list[t], cost)
    ensures InRound(w, ns, list, t + 1, cost) && Unselected(ns) <= Unselected(ms)
  {
    forall s | 0 <= s < t + 1 && list[s] in Unselected(ns) ensures Exhausted(w, ns, list[s], cost) {
      if list[s] != list[t] {
        assert Exhausted(w, ms, list[s], cost);
      }
    }
    forall p, q | 0 <= p < |ns| && 0 <= q < |ns| && p != q && !ns[p].selected && !ns[q].selected
      ensures w[p][q] >= cost
    {
      assert p in Unselected(ns) && q in Unselected(ns);
    }
  }

  /** After the round, no two unselected stripes cost `cost` or less, and no tentative candidate does. */
  lemma RoundDone(w: Costs, ms: seq<Mark>, list: seq<nat>, rest: seq<nat>, cost: nat)
    requires Sized(w, ms) && InRound(w, ms, list, |list|, cost)
    requires forall p :: p in list && p in Unselected(ms) ==> p in rest
    ensures InRound(w, ms, rest, 0, cost + 1)
  {
    forall p | p in Unselected(ms) ensures Exhausted(w, ms, p, cost) {
      var s :| 0 <= s < |list| && list[s] == p;
    }
    forall p, q | 0 <= p < |ms| && 0 <= q < |ms| && p != q && !ms[p].selected && !ms[q].selected
      ensures w[p][q] >= cost + 1
    {
      assert p in Unselected(ms) && q in Unselected(ms);
      assert Exhausted(w, ms, p, cost);
    }
  }

  /** The clean-up queue of a round, once the first `t` stripes of the list have been visited: stripes
      that are selected by now, among them all that were selected before the round. */
  ghost predicate Swept(first: seq<Mark>, ms: seq<Mark>, list: seq<nat>, t: nat, queue: seq<nat>) {
    && Unselected(ms) <= Unselected(first)
    && (forall x :: x in queue ==> x in list && x !in Unselected(ms))
    && (forall s :: 0 <= s < t && s < |list| ==> list[s] in queue || list[s] in Unselected(first))
  }

  lemma SweepStep(first: seq<Mark>, ms: seq<Mark>, ns: seq<Mark>, list: seq<nat>, t: nat, queue: seq<nat>, toDel: bool)
    requires Swept(first, ms, list, t, queue) && t < |list| && Unselected(ns) <= Unselected(ms)
    requires if toDel then list[t] !in Unselected(ns) else list[t] in Unselected(ms)
    ensures Swept(first, ns, list, t + 1, if toDel then queue + [list[t]] else queue)
  {
  }

  /** What the clean-up at the end of a round leaves. */
  lemma SweepDone(w: Costs, first: seq<Mark>, ms: seq<Mark>, list: seq<nat>, queue: seq<nat>, cost: nat)
    requires Sized(w, ms) && InOrderBelow(list, |ms|) && Swept(first, ms, list, |list|, queue)
    requires InRound(w, ms, list, |list|, cost)
    ensures var rest := Without(list, SetOf(queue));
            InOrderBelow(rest, |ms|) && InRound(w, ms, rest, 0, cost + 1)
    ensures SetOf(queue) !! Unselected(ms) && SetOf(list) <= SetOf(queue) + Unselected(first)
  {
    WithoutRising(list, SetOf(queue));
    WithoutMembers(list, SetOf(queue));
    forall x | x in Without(list, SetOf(queue)) ensures x < |ms| {
      assert x in SetOf(list);
    }
    RoundDone(w, ms, list, Without(list, SetOf(queue)), cost);
  }

  /** A list of indices below `n`, in index order. */
  ghost predicate InOrderBelow(list: seq<nat>, n: nat) {
    Rising(list) && Indices(SetOf(list), n)
  }

  /** A generator on which nothing has been matched. */
  lemma FreshInv(c: Params, ds: seq<Dist>, w: Costs, ms: seq<Mark>)
    requires Prices(c, ds, w) && FreeMeansAligned(w, ds) && |ms| == |ds|
    requires forall p :: 0 <= p < |ms| ==> ms[p] == Mark(NO_INDEX, NO_COST, false)
    ensures Inv(w, ds, State(ms, map[]), []) && Guarded(w, ms) && AllCached(w, ms)
    ensures Unselected(ms) == Everyone(|ds|) && |Unselected(ms)| == |ds|
  {
    EveryoneSize(|ds|);
    assert Unselected(ms) == Everyone(|ds|);
  }

  /** Before the first round. */
  lemma StartRound(w: Costs, ms: seq<Mark>, list: seq<nat>)
    requires Sized(w, ms) && |list| == |ms| && forall i :: 0 <= i < |list| ==> list[i] == i
    ensures InRound(w, ms, list, 0, 0)
    ensures Rising(list) && Indices(SetOf(list), |ms|)
  {
    forall p | p in Unselected(ms) ensures p in list {
      assert list[p] == p;
    }
  }

  /** The stripes that leave a list once it has been searched: the matched ones that were passed, and on
      success the two new partners. */
  ghost function Cleaned(found: bool, peer: nat, self: nat, selfSeen: bool, queue: seq<nat>): set<nat> {
    (if found then {peer} else {}) + (if found && selfSeen then {self} else {}) + SetOf(queue)
  }

  /** The erasures at the end of `single_search`. */
  method CleanUp(domain: seq<nat>, found: bool, peer: nat, self: nat, selfSeen: bool, queue: seq<nat>) returns (r: seq<nat>)
    requires Distinct(domain)
    ensures r == Without(domain, Cleaned(found, peer, self, selfSeen, queue))
  {
    r := domain;
    ghost var gone: set<nat> := {};
    WithoutNothing(domain, {});
    if found {
      EraseIsWithout(domain, peer);
      r := Erase(r, peer);
      gone := {peer};
      if selfSeen {
        WithoutDistinct(domain, gone);
        EraseIsWithout(r, self);
        WithoutTwice(domain, gone, {self});
        r := Erase(r, self);
        gone := gone + {self};
      }
    }
    WithoutDistinct(domain, gone);
    r := EraseAll(r, queue);
    WithoutTwice(domain, gone, SetOf(queue));
    assert gone + SetOf(queue) == Cleaned(found, peer, self, selfSeen, queue);
  }
}
