/**
 Where the optimiser stops (src/matching_generator.cc, make_optimization): no costly pair that the search
 found could still be freed by re-pairing it with a free pair.
 */
module OptimizerEnd {
  import opened Stripes
  import opened Matchings
  import opened Optimizer
  import opened Bookkeeping

  /** Re-pairing `x` and its partner with `i` and its partner, either way round, would free both pairs. */
  ghost predicate CouldSwap(w: Costs, ms: seq<Mark>, x: nat, i: nat)
    requires Sized(w, ms) && x < |ms| && ms[x].matchingIndex < |ms| && i < |ms| && ms[i].matchingIndex < |ms|
  {
    var y, j := ms[x].matchingIndex, ms[i].matchingIndex;
    (w[x][i] == 0 && w[y][j] == 0) || (w[x][j] == 0 && w[y][i] == 0)
  }

  /** A matched pair with aligned parities and a cost from 1 to `m - 1`. */
  ghost predicate CostlyAligned(ds: seq<Dist>, ms: seq<Mark>, m: nat, x: nat)
    requires x < |ms| == |ds|
  {
    && ms[x].selected && ms[x].matchingIndex < |ms| && 1 <= ms[x].curCost < m
    && ds[x].parity == ds[ms[x].matchingIndex].parity
  }

  ghost predicate FreePair(ms: seq<Mark>, i: nat)
    requires i < |ms|
  {
    ms[i].selected && ms[i].matchingIndex < |ms| && ms[i].curCost == 0
  }

  /** No swap is left to be made. */
  ghost predicate SwapsDone(w: Costs, ds: seq<Dist>, ms: seq<Mark>, m: nat)
    requires Sized(w, ms) && |ds| == |ms|
  {
    forall x, i :: 0 <= x < |ms| && 0 <= i < |ms| && CostlyAligned(ds, ms, m, x) && FreePair(ms, i)
      ==> !CouldSwap(w, ms, x, i)
  }

  // -------------------------------------------------------------------------------------------
  // How far the optimiser moves away from the matching it is given
  // -------------------------------------------------------------------------------------------

  /** The stripe pays nothing in the matching the optimiser starts from. */
  ghost predicate Free(ms: seq<Mark>, p: nat)
    requires p < |ms|
  {
    ms[p].selected && ms[p].curCost == 0
  }

  lemma CostlyApart(w: Costs, first: seq<Mark>, p: nat, q: nat)
    requires Sized(w, first) && Stable(w, first) && p < |first| && q < |first| && p != q
    requires !Free(first, p) && !Free(first, q)
    ensures w[p][q] > 0
  {
    assert Content(w, first, p, q);
  }

  /** The partner has changed, to a stripe that used to pay. */
  ghost predicate Moved(first: seq<Mark>, ms: seq<Mark>, p: nat)
    requires p < |ms| == |first|
  {
    ms[p].matchingIndex < |first| && !Free(first, ms[p].matchingIndex)
  }

  /** Stripes that pay have kept their partner; stripes that never paid have kept it, or now have one that
      used to pay. */
  ghost predicate Drifted(w: Costs, first: seq<Mark>, ms: seq<Mark>)
    requires Sized(w, first)
  {
    && |ms| == |first|
    && (forall p :: 0 <= p < |ms| && !Free(ms, p) ==> ms[p] == first[p])
    && (forall p :: 0 <= p < |ms| && Free(first, p) ==> ms[p] == first[p] || Moved(first, ms, p))
  }

  /** A stripe that never paid and has moved does not move again. */
  ghost predicate MovedStay(first: seq<Mark>, ms: seq<Mark>, ns: seq<Mark>)
    requires |first| == |ms| == |ns|
  {
    forall p :: 0 <= p < |ms| && Free(first, p) && Moved(first, ms, p) ==> ns[p] == ms[p]
  }

  /** The marks after a swap of `a`, `c` and `i`, `j`. */
  ghost predicate FourChanged(ms: seq<Mark>, ns: seq<Mark>, a: nat, c: nat, i: nat, j: nat) {
    && |ms| == |ns| && a < |ms| && c < |ms| && i < |ms| && j < |ms|
    && ns[a] == Mark(j, 0, true) && ns[j] == Mark(a, 0, true) && ns[c] == Mark(i, 0, true) && ns[i] == Mark(c, 0, true)
    && forall p :: 0 <= p < |ms| && p != a && p != c && p != i && p != j ==> ns[p] == ms[p]
  }

  lemma FourChangedDrifts(w: Costs, first: seq<Mark>, ms: seq<Mark>, ns: seq<Mark>, a: nat, c: nat, i: nat, j: nat)
    requires Sized(w, first) && Drifted(w, first, ms) && FourChanged(ms, ns, a, c, i, j)
    requires !Free(first, a) && !Free(first, c)
    ensures Drifted(w, first, ns)
  {
  }

  lemma FourChangedStay(first: seq<Mark>, ms: seq<Mark>, ns: seq<Mark>, a: nat, c: nat, i: nat, j: nat)
    requires |first| == |ms| && FourChanged(ms, ns, a, c, i, j)
    requires !Free(first, a) && !Free(first, c) && Free(first, i) && Free(first, j)
    requires ms[i].matchingIndex == j && ms[j].matchingIndex == i
    ensures MovedStay(first, ms, ns)
  {
  }

  lemma RewireDrifts(w: Costs, ds: seq<Dist>, first: seq<Mark>, st: State, a: nat, i: nat)
    requires Sized(w, first) && Stable(w, first) && Drifted(w, first, st.marks) && CanRewire(w, ds, st, a, i)
    ensures Drifted(w, first, Rewire(ds, st, a, i).marks)
    ensures MovedStay(first, st.marks, Rewire(ds, st, a, i).marks)
  {
    FourStripes(w, ds, st, a, i);
    var c, j := st.marks[a].matchingIndex, st.marks[i].matchingIndex;
    var ms, ns := st.marks, Rewire(ds, st, a, i).marks;
    assert !Free(ms, a) && !Free(ms, c);
    BothFree(w, first, ms, a, c, i, j);
    FourChangedDrifts(w, first, ms, ns, a, c, i, j);
    FourChangedStay(first, ms, ns, a, c, i, j);
  }

  /** The pair that a costly pair is swapped with never paid. */
  lemma BothFree(w: Costs, first: seq<Mark>, ms: seq<Mark>, a: nat, c: nat, i: nat, j: nat)
    requires Sized(w, first) && Stable(w, first) && Drifted(w, first, ms)
    requires a < |w| && c < |w| && i < |w| && j < |w| && a != j && c != i
    requires !Free(ms, a) && !Free(ms, c) && w[a][j] == 0 && w[c][i] == 0
    ensures !Free(first, a) && !Free(first, c) && Free(first, i) && Free(first, j)
  {
    if !Free(first, j) {
      CostlyApart(w, first, a, j);
    }
    if !Free(first, i) {
      CostlyApart(w, first, c, i);
    }
  }

  /** What handling a candidate does: nothing, or one swap with an entry of its parity list. */
  lemma OneIsRewire(w: Costs, ds: seq<Dist>, st: State, x: nat, rest: seq<nat>) returns (a: nat, i: nat)
    requires Inv(w, ds, st, [x] + rest) && Inv(w, ds, st, [x]) && OptimizeOne(w, ds, st, x) != st
    ensures x < |w| && st.marks[x].matchingIndex < |w| && st.marks[st.marks[x].matchingIndex].matchingIndex == x
    ensures (a == x || a == st.marks[x].matchingIndex) && CanRewire(w, ds, st, a, i)
    ensures ds[a].parity in st.zeroMap && i in st.zeroMap[ds[a].parity]
    ensures OptimizeOne(w, ds, st, x) == Rewire(ds, st, a, i)
  {
    InvHead(w, ds, st, x, rest);
    var ms, pd := st.marks, ds[x].parity;
    var list := st.zeroMap[pd];
    ListIsReady(w, ds, st, pd, [x]);
    FindSwapInList(w, ms, x, list);
    var r := FindSwap(w, ms, x, list);
    a := if r.Straight? then ms[x].matchingIndex else x;
    i := r.i;
    SwapIsLegal(w, ds, st, x, a, i);
  }

  /** Every free pair has an entry. */
  ghost predicate AllEntered(ds: seq<Dist>, st: State)
    requires |ds| == |st.marks|
  {
    forall p :: 0 <= p < |st.marks| && Free(st.marks, p) ==> Entered(ds, st.zeroMap, p, st.marks[p].matchingIndex)
  }

  lemma RewireKeepsEntered(w: Costs, ds: seq<Dist>, st: State, a: nat, i: nat)
    requires CanRewire(w, ds, st, a, i) && |ds| == |st.marks| && AllEntered(ds, st)
    requires ds[a].parity in st.zeroMap && i in st.zeroMap[ds[a].parity]
    ensures AllEntered(ds, Rewire(ds, st, a, i))
  {
    FourStripes(w, ds, st, a, i);
    var st' := Rewire(ds, st, a, i);
    var pd := ds[a].parity;
    assert st'.zeroMap[pd] == [a] + st.zeroMap[pd];
    assert a in st'.zeroMap[pd] by {
      assert st'.zeroMap[pd][0] == a;
    }
    forall p | 0 <= p < |st'.marks| && Free(st'.marks, p)
      ensures Entered(ds, st'.zeroMap, p, st'.marks[p].matchingIndex)
    {
      if st'.marks[p] == st.marks[p] {
        assert Entered(ds, st.zeroMap, p, st.marks[p].matchingIndex);
      }
    }
  }

  /** What the optimiser keeps from candidate to candidate. */
  ghost predicate Underway(w: Costs, ds: seq<Dist>, first: seq<Mark>, st: State)
    requires Sized(w, first)
  {
    Drifted(w, first, st.marks) && |ds| == |st.marks| && AllEntered(ds, st)
  }

  lemma OneKeepsUnderway(w: Costs, ds: seq<Dist>, first: seq<Mark>, st: State, x: nat, rest: seq<nat>)
    requires Sized(w, first) && Stable(w, first) && Underway(w, ds, first, st)
    requires Inv(w, ds, st, [x] + rest) && Inv(w, ds, st, [x])
    ensures Underway(w, ds, first, OptimizeOne(w, ds, st, x))
    ensures MovedStay(first, st.marks, OptimizeOne(w, ds, st, x).marks)
  {
    if OptimizeOne(w, ds, st, x) != st {
      var a, i := OneIsRewire(w, ds, st, x, rest);
      RewireDrifts(w, ds, first, st, a, i);
      RewireKeepsEntered(w, ds, st, a, i);
    }
  }

  /** Over the whole pass. */
  lemma {:induction false} AllKeepUnderway(w: Costs, ds: seq<Dist>, first: seq<Mark>, st: State, cands: seq<nat>)
    requires Sized(w, first) && Stable(w, first) && Underway(w, ds, first, st) && Inv(w, ds, st, cands)
    ensures Underway(w, ds, first, OptimizeAll(w, ds, st, cands))
    ensures MovedStay(first, st.marks, OptimizeAll(w, ds, st, cands).marks)
    decreases |cands|
  {
    if cands != [] {
      var x, rest := cands[0], cands[1..];
      assert cands == [x] + rest;
      OptimizeOneKeeps(w, ds, st, x, rest);
      OneKeepsUnderway(w, ds, first, st, x, rest);
      var next := OptimizeOne(w, ds, st, x);
      AllKeepUnderway(w, ds, first, next, rest);
      var last := OptimizeAll(w, ds, next, rest);
      forall p | 0 <= p < |st.marks| && Free(first, p) && Moved(first, st.marks, p)
        ensures last.marks[p] == st.marks[p]
      {
        assert next.marks[p] == st.marks[p];
      }
    }
  }

  // -------------------------------------------------------------------------------------------
  // The end
  // -------------------------------------------------------------------------------------------

  lemma SwappableEitherWay(w: Costs, ms: seq<Mark>, x: nat, i: nat)
    requires Sized(w, ms) && Paired(w, ms) && x < |ms| && i < |ms| && ms[x].selected && ms[i].selected
    ensures ms[x].matchingIndex < |ms| && ms[i].matchingIndex < |ms|
    ensures ms[ms[i].matchingIndex].matchingIndex == i && ms[ms[x].matchingIndex].matchingIndex == x
    ensures CouldSwap(w, ms, x, i) <==> CouldSwap(w, ms, x, ms[i].matchingIndex)
    ensures CouldSwap(w, ms, x, i) <==> CouldSwap(w, ms, ms[x].matchingIndex, i)
  {
    assert MarkedPair(w, ms, x) && MarkedPair(w, ms, i);
  }

  /** A candidate that still pays could not be swapped with any free pair that kept its partners. */
  lemma {:induction false} CandidateStuck(w: Costs, ds: seq<Dist>, first: seq<Mark>, st: State, cands: seq<nat>,
                                          last: State, x: nat, i: nat)
    requires Sized(w, first) && Stable(w, first) && Underway(w, ds, first, st) && Inv(w, ds, st, cands)
    requires last == OptimizeAll(w, ds, st, cands) && x in cands && x < |first| == |last.marks| && i < |first|
    requires last.marks[x] == first[x] && first[x].curCost > 0 && first[x].selected
    requires last.marks[i] == first[i] && Free(first, i) && !Moved(first, first, i)
    requires ds[x].parity == ds[i].parity
    ensures first[x].matchingIndex < |first| && first[i].matchingIndex < |first| && !CouldSwap(w, first, x, i)
    decreases |cands|
  {
    var y, rest := cands[0], cands[1..];
    assert cands == [y] + rest;
    OptimizeOneKeeps(w, ds, st, y, rest);
    OneKeepsUnderway(w, ds, first, st, y, rest);
    var next := OptimizeOne(w, ds, st, y);
    if x in rest {
      CandidateStuck(w, ds, first, next, rest, last, x, i);
    } else {
      HeadStuck(w, ds, first, st, x, rest, last, i);
    }
  }

  /** While a candidate waits, it and the free pairs that will not move are as they were. */
  lemma StillThere(w: Costs, ds: seq<Dist>, first: seq<Mark>, st: State, cands: seq<nat>, last: State, x: nat, i: nat)
    requires Sized(w, first) && Stable(w, first) && Underway(w, ds, first, st) && Inv(w, ds, st, cands)
    requires last == OptimizeAll(w, ds, st, cands) && x < |first| == |last.marks| && i < |first|
    requires last.marks[x] == first[x] && first[x].curCost > 0 && first[x].selected
    requires last.marks[i] == first[i] && Free(first, i) && !Moved(first, first, i)
    ensures st.marks[x] == first[x] && st.marks[i] == first[i]
  {
    AllKeepUnderway(w, ds, first, st, cands);
    OptimizeAllKeeps(w, ds, st, cands);
    assert st.marks[x].curCost >= last.marks[x].curCost;
  }

  /** A candidate that pays to the end is left alone. */
  lemma PaysToTheEnd(w: Costs, ds: seq<Dist>, st: State, x: nat, rest: seq<nat>, last: State)
    requires Inv(w, ds, st, [x] + rest) && last == OptimizeAll(w, ds, st, [x] + rest)
    requires x < |w| == |last.marks| && last.marks[x].curCost > 0
    ensures Inv(w, ds, st, [x]) && OptimizeOne(w, ds, st, x) == st
  {
    var cands := [x] + rest;
    assert cands[0] == x && cands[1..] == rest;
    OptimizeOneKeeps(w, ds, st, x, rest);
    var next := OptimizeOne(w, ds, st, x);
    if next != st {
      var a, e := OneIsRewire(w, ds, st, x, rest);
      FreedAtOnce(w, ds, st, x, a, e);
      OptimizeAllKeeps(w, ds, next, rest);
    }
  }

  lemma FreedAtOnce(w: Costs, ds: seq<Dist>, st: State, x: nat, a: nat, e: nat)
    requires CanRewire(w, ds, st, a, e) && x < |w| && (a == x || a == st.marks[x].matchingIndex)
    requires st.marks[x].matchingIndex < |w| && st.marks[st.marks[x].matchingIndex].matchingIndex == x
    ensures Rewire(ds, st, a, e).marks[x].curCost == 0
  {
    RewireCosts(w, ds, st, a, e);
    FourStripes(w, ds, st, a, e);
    assert CurCosts(Rewire(ds, st, a, e).marks)[x] == 0;
  }

  lemma HeadStuck(w: Costs, ds: seq<Dist>, first: seq<Mark>, st: State, x: nat, rest: seq<nat>, last: State, i: nat)
    requires Sized(w, first) && Stable(w, first) && Underway(w, ds, first, st)
    requires Inv(w, ds, st, [x] + rest) && last == OptimizeAll(w, ds, st, [x] + rest)
    requires x < |first| == |last.marks| && i < |first|
    requires last.marks[x] == first[x] && first[x].curCost > 0 && first[x].selected
    requires last.marks[i] == first[i] && Free(first, i) && !Moved(first, first, i)
    requires ds[x].parity == ds[i].parity
    ensures first[x].matchingIndex < |first| && first[i].matchingIndex < |first| && !CouldSwap(w, first, x, i)
  {
    StillThere(w, ds, first, st, [x] + rest, last, x, i);
    PaysToTheEnd(w, ds, st, x, rest, last);
    NoEntrySwaps(w, ds, st, x, i);
    assert MarkedPair(w, first, x) && MarkedPair(w, first, i);
    SameSwap(w, st.marks, first, x, i);
  }

  lemma SameSwap(w: Costs, ms: seq<Mark>, ns: seq<Mark>, x: nat, i: nat)
    requires Sized(w, ms) && Sized(w, ns) && x < |ms| && i < |ms| && ms[x] == ns[x] && ms[i] == ns[i]
    requires ms[x].matchingIndex < |ms| && ms[i].matchingIndex < |ms|
    ensures CouldSwap(w, ms, x, i) <==> CouldSwap(w, ns, x, i)
  {
  }

  /** If a candidate is left alone, it could not be swapped with the free pair of `i`. */
  lemma NoEntrySwaps(w: Costs, ds: seq<Dist>, st: State, x: nat, i: nat)
    requires Inv(w, ds, st, [x]) && OptimizeOne(w, ds, st, x) == st && |ds| == |st.marks| && AllEntered(ds, st)
    requires x < |w| && i < |w| && st.marks[x].selected && Free(st.marks, i) && ds[x].parity == ds[i].parity
    ensures st.marks[x].matchingIndex < |w| && st.marks[i].matchingIndex < |w| && !CouldSwap(w, st.marks, x, i)
  {
    SwappableEitherWay(w, st.marks, x, i);
    assert Entered(ds, st.zeroMap, i, st.marks[i].matchingIndex);
    var e := if i in st.zeroMap[ds[i].parity] then i else st.marks[i].matchingIndex;
    UnswappedIsStuck(w, ds, st, x, e);
  }

  /** When the optimiser stops, no costly pair of the search could still be freed. */
  lemma OptimizerFinishes(w: Costs, ds: seq<Dist>, st: State, cands: seq<nat>, m: nat)
    requires Inv(w, ds, st, cands) && Stable(w, st.marks) && |ds| == |w| && Recorded(ds, st.marks, st.zeroMap, cands, m)
    ensures var last := OptimizeAll(w, ds, st, cands);
            Sized(w, last.marks) && SwapsDone(w, ds, last.marks, m)
  {
    var first, last := st.marks, OptimizeAll(w, ds, st, cands);
    OptimizeAllKeeps(w, ds, st, cands);
    NothingMoved(w, ds, st, cands, m);
    AllKeepUnderway(w, ds, first, st, cands);
    forall x, i | 0 <= x < |w| && 0 <= i < |w| && CostlyAligned(ds, last.marks, m, x) && FreePair(last.marks, i)
      ensures !CouldSwap(w, last.marks, x, i)
    {
      if CouldSwap(w, last.marks, x, i) {
        PairStuck(w, ds, st, cands, m, last, x, i);
        assert false;
      }
    }
  }

  lemma NothingMoved(w: Costs, ds: seq<Dist>, st: State, cands: seq<nat>, m: nat)
    requires Sized(w, st.marks) && |ds| == |w| && Recorded(ds, st.marks, st.zeroMap, cands, m)
    ensures Underway(w, ds, st.marks, st)
  {
    forall p | 0 <= p < |st.marks| && Free(st.marks, p) ensures Entered(ds, st.zeroMap, p, st.marks[p].matchingIndex) {
      assert RecordedAt(ds, st.marks, st.zeroMap, cands, m, p);
    }
  }

  lemma PairStuck(w: Costs, ds: seq<Dist>, st: State, cands: seq<nat>, m: nat, last: State, x: nat, i: nat)
    requires Inv(w, ds, st, cands) && Stable(w, st.marks) && |ds| == |w| && Recorded(ds, st.marks, st.zeroMap, cands, m)
    requires last == OptimizeAll(w, ds, st, cands) && Underway(w, ds, st.marks, st)
    requires Sized(w, last.marks) && Paired(w, last.marks) && Underway(w, ds, st.marks, last) && x < |w| && i < |w|
    requires CostlyAligned(ds, last.marks, m, x) && FreePair(last.marks, i)
    ensures !CouldSwap(w, last.marks, x, i)
  {
    if CouldSwap(w, last.marks, x, i) {
      var first := st.marks;
      var y, j := last.marks[x].matchingIndex, last.marks[i].matchingIndex;
      assert MarkedPair(w, last.marks, x) && MarkedPair(w, last.marks, i);
      assert w[x][y] == w[y][x] && w[i][j] == w[j][i];
      assert last.marks[x] == first[x] && last.marks[y] == first[y];
      NeverPaid(w, ds, first, last.marks, x, i);
      assert RecordedAt(ds, first, st.zeroMap, cands, m, x);
      SwappableEitherWay(w, last.marks, x, i);
      if x in cands {
        CandidateStuck(w, ds, first, st, cands, last, x, i);
      } else {
        CandidateStuck(w, ds, first, st, cands, last, y, i);
      }
    }
  }

  /** A free pair that could be swapped with a costly one never paid, and has kept its partners. */
  lemma NeverPaid(w: Costs, ds: seq<Dist>, first: seq<Mark>, ms: seq<Mark>, x: nat, i: nat)
    requires Sized(w, first) && Stable(w, first) && Sized(w, ms) && Paired(w, ms) && Drifted(w, first, ms)
    requires |ds| == |w| && FreeMeansAligned(w, ds) && x < |w| && i < |w|
    requires ms[x].selected && ms[x].matchingIndex < |w| && ms[x].curCost > 0 && FreePair(ms, i)
    requires ms[ms[x].matchingIndex] == first[ms[x].matchingIndex] && ms[ms[x].matchingIndex].curCost > 0
    requires ds[x].parity == ds[ms[x].matchingIndex].parity
    requires CouldSwap(w, ms, x, i)
    ensures ms[i] == first[i] && Free(first, i) && !Moved(first, first, i) && ds[i].parity == ds[x].parity
  {
    var y, j := ms[x].matchingIndex, ms[i].matchingIndex;
    assert MarkedPair(w, ms, i) && MarkedPair(w, ms, x);
    var k, l := if w[x][i] == 0 && w[y][j] == 0 then i else j, if w[x][i] == 0 && w[y][j] == 0 then j else i;
    assert w[x][k] == 0 && w[y][l] == 0;
    if !Free(first, k) {
      CostlyApart(w, first, x, k);
    }
    if !Free(first, l) {
      CostlyApart(w, first, y, l);
    }
  }
}
