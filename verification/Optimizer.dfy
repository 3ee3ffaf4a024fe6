/**
 The swap optimiser of StripeMerge-P (src/matching_generator.cc, mark_matched and
 make_optimization) as functions on the marks and on `zero_map`.

 `zero_map` lists, per parity placement, one stripe of every pair matched at cost zero;
 `none_zero_candidate` lists one stripe of every costly pair whose parity blocks are aligned.  A
 candidate pair and a zero pair are re-paired when both new pairs are free.
 */
module Optimizer {
  import opened Stripes
  import opened Matchings

  type ZeroMap = map<seq<nat>, seq<nat>>

  datatype State = State(marks: seq<Mark>, zeroMap: ZeroMap)

  datatype Swap = NoSwap | Straight(i: nat) | Crossed(i: nat)

  function PushFront(z: ZeroMap, pd: seq<nat>, i: nat): ZeroMap {
    z[pd := [i] + if pd in z then z[pd] else []]
  }

  // -------------------------------------------------------------------------------------------
  // The bookkeeping of mark_matched
  // -------------------------------------------------------------------------------------------

  /** `zero_map` after `mark_matched(i, _, cost, flag)`. */
  function NoteZero(ds: seq<Dist>, z: ZeroMap, i: nat, cost: nat, flag: bool): ZeroMap
    requires i < |ds|
  {
    if flag && cost == 0 then PushFront(z, ds[i].parity, i) else z
  }

  /** `none_zero_candidate` after `mark_matched(i, j, cost, flag)`. */
  function NoteCandidate(ds: seq<Dist>, cands: seq<nat>, i: nat, j: nat, cost: nat, flag: bool): seq<nat>
    requires i < |ds| && j < |ds|
  {
    if flag && cost != 0 && ds[i].parity == ds[j].parity then cands + [i] else cands
  }

  // -------------------------------------------------------------------------------------------
  // make_optimization
  // -------------------------------------------------------------------------------------------

  ghost predicate Shaped(w: Costs, ds: seq<Dist>, ms: seq<Mark>) {
    Sized(w, ms) && |ds| == |w|
  }

  ghost predicate ListReady(ms: seq<Mark>, list: seq<nat>) {
    forall l :: l in list ==> l < |ms| && ms[l].matchingIndex < |ms|
  }

  /** The two ways of re-pairing the pair of `x` with the zero pair of `i`. */
  ghost function TryOne(w: Costs, ms: seq<Mark>, x: nat, i: nat): Swap
    requires Sized(w, ms) && x < |ms| && ms[x].matchingIndex < |ms|
    requires i < |ms| && ms[i].matchingIndex < |ms|
  {
    var y, j := ms[x].matchingIndex, ms[i].matchingIndex;
    if w[x][i] == 0 && w[y][j] == 0 then Straight(i)
    else if w[x][j] == 0 && w[y][i] == 0 then Crossed(i)
    else NoSwap
  }

  /** The first zero pair in the list that can be re-paired with the pair of `x`. */
  ghost function FindSwap(w: Costs, ms: seq<Mark>, x: nat, list: seq<nat>): (swap: Swap)
    requires Sized(w, ms) && x < |ms| && ms[x].matchingIndex < |ms|
    requires ListReady(ms, list)
    ensures swap.NoSwap? || swap.i in list
  {
    if list == [] then NoSwap
    else
      assert list[0] in list && forall l :: l in list[1..] ==> l in list;
      var first := TryOne(w, ms, x, list[0]);
      if first.NoSwap? then FindSwap(w, ms, x, list[1..]) else first
  }

  /** Pairs `a` with the partner of `i`, and the partner of `a` with `i`; `a` becomes the entry of its
      new pair, `i` stays the entry of the other one. */
  function Rewire(ds: seq<Dist>, st: State, a: nat, i: nat): State
    requires |ds| == |st.marks| && a < |ds| && i < |ds|
    requires st.marks[a].matchingIndex < |ds| && st.marks[i].matchingIndex < |ds|
  {
    var c, j := st.marks[a].matchingIndex, st.marks[i].matchingIndex;
    State(MarkPair(MarkPair(st.marks, a, j, 0), c, i, 0), PushFront(st.zeroMap, ds[a].parity, a))
  }

  ghost function ApplySwap(ds: seq<Dist>, st: State, x: nat, swap: Swap): State
    requires |ds| == |st.marks| && x < |ds| && st.marks[x].matchingIndex < |ds|
    requires st.marks[st.marks[x].matchingIndex].matchingIndex < |ds|
    requires swap.NoSwap? || (swap.i < |ds| && st.marks[swap.i].matchingIndex < |ds|)
  {
    match swap
    case NoSwap => st
    case Straight(i) => Rewire(ds, st, st.marks[x].matchingIndex, i)
    case Crossed(i) => Rewire(ds, st, x, i)
  }

  // -------------------------------------------------------------------------------------------
  // The invariant
  // -------------------------------------------------------------------------------------------

  /** Free pairs have aligned parities; see `FreeMergeIff`. */
  ghost predicate FreeMeansAligned(w: Costs, ds: seq<Dist>) {
    && Symmetric(w) && |ds| == |w|
    && forall p, q :: 0 <= p < |w| && 0 <= q < |w| && p != q && w[p][q] == 0 ==> ds[p].parity == ds[q].parity
  }

  /** `p` and `q` stand for different pairs. */
  ghost predicate Apart(ms: seq<Mark>, p: nat, q: nat)
    requires p < |ms|
  {
    p != q && ms[p].matchingIndex != q
  }

  ghost predicate ZeroEntry(ds: seq<Dist>, ms: seq<Mark>, pd: seq<nat>, l: nat)
    requires |ds| == |ms|
  {
    l < |ms| && ms[l].selected && ms[l].curCost == 0 && ds[l].parity == pd
  }

  ghost predicate ZeroList(ds: seq<Dist>, ms: seq<Mark>, pd: seq<nat>, list: seq<nat>)
    requires |ds| == |ms|
  {
    && (forall s :: 0 <= s < |list| ==> ZeroEntry(ds, ms, pd, list[s]))
    && (forall s, t :: 0 <= s < |list| && 0 <= t < |list| && s != t ==> Apart(ms, list[s], list[t]))
  }

  /** Every entry of `zero_map` stands for a free pair with the entry's key as parity placement, and
      different entries stand for different pairs. */
  ghost predicate ZeroMapOk(ds: seq<Dist>, ms: seq<Mark>, z: ZeroMap)
    requires |ds| == |ms|
  {
    forall pd :: pd in z ==> ZeroList(ds, ms, pd, z[pd])
  }

  ghost predicate Candidate(ds: seq<Dist>, ms: seq<Mark>, x: nat)
    requires |ds| == |ms|
  {
    && x < |ms| && ms[x].selected && ms[x].curCost > 0
    && ms[x].matchingIndex < |ms| && ds[ms[x].matchingIndex].parity == ds[x].parity
  }

  /** Every candidate stands for a costly pair with aligned parities, each for a different one. */
  ghost predicate CandidatesOk(ds: seq<Dist>, ms: seq<Mark>, cands: seq<nat>)
    requires |ds| == |ms|
  {
    && (forall s :: 0 <= s < |cands| ==> Candidate(ds, ms, cands[s]))
    && (forall s, t :: 0 <= s < |cands| && 0 <= t < |cands| && s != t ==> Apart(ms, cands[s], cands[t]))
  }

  ghost predicate Inv(w: Costs, ds: seq<Dist>, st: State, cands: seq<nat>) {
    && FreeMeansAligned(w, ds) && Sized(w, st.marks) && Paired(w, st.marks)
    && ZeroMapOk(ds, st.marks, st.zeroMap) && CandidatesOk(ds, st.marks, cands)
  }

  lemma NoteKeepsZeroMap(w: Costs, ds: seq<Dist>, st: State, i: nat, j: nat, cost: nat, flag: bool)
    requires Shaped(w, ds, st.marks) && Paired(w, st.marks) && ZeroMapOk(ds, st.marks, st.zeroMap)
    requires i < |w| && j < |w| && i != j && !st.marks[i].selected && !st.marks[j].selected && cost == w[i][j]
    ensures ZeroMapOk(ds, MarkPair(st.marks, i, j, cost), NoteZero(ds, st.zeroMap, i, cost, flag))
  {
    var ms, ns := st.marks, MarkPair(st.marks, i, j, cost);
    SelectKeepsPaired(w, ms, i, j, cost);
    var z' := NoteZero(ds, st.zeroMap, i, cost, flag);
    forall pd | pd in z' ensures ZeroList(ds, ns, pd, z'[pd]) {
      var before := if pd in st.zeroMap then st.zeroMap[pd] else [];
      assert ZeroList(ds, ms, pd, before);
      UntouchedZeroList(w, ds, ms, i, j, cost, pd, before);
      if z'[pd] != before {
        ZeroListCons(w, ds, ns, pd, i, before);
      }
    }
  }

  lemma NoteKeepsCandidates(w: Costs, ds: seq<Dist>, ms: seq<Mark>, cands: seq<nat>, i: nat, j: nat, cost: nat, flag: bool)
    requires Shaped(w, ds, ms) && Paired(w, ms) && CandidatesOk(ds, ms, cands)
    requires i < |w| && j < |w| && i != j && !ms[i].selected && !ms[j].selected && cost == w[i][j]
    ensures CandidatesOk(ds, MarkPair(ms, i, j, cost), NoteCandidate(ds, cands, i, j, cost, flag))
  {
    var ns, cs := MarkPair(ms, i, j, cost), NoteCandidate(ds, cands, i, j, cost, flag);
    forall s | 0 <= s < |cands|
      ensures Candidate(ds, ms, cands[s]) && ns[cands[s]] == ms[cands[s]]
      ensures cands[s] != i && cands[s] != j && ms[cands[s]].matchingIndex != i
    {
      assert Candidate(ds, ms, cands[s]) && MarkedPair(w, ms, cands[s]);
    }
    forall s | 0 <= s < |cs| ensures Candidate(ds, ns, cs[s]) {
      assert s < |cands| ==> Candidate(ds, ms, cands[s]);
    }
    forall s, t | 0 <= s < |cs| && 0 <= t < |cs| && s != t ensures Apart(ns, cs[s], cs[t]) {
      if s < |cands| && t < |cands| {
        assert Apart(ms, cands[s], cands[t]);
      }
    }
  }

  /** Selecting an unselected pair through `mark_matched` keeps the invariant. */
  lemma NoteKeeps(w: Costs, ds: seq<Dist>, st: State, cands: seq<nat>, i: nat, j: nat, cost: nat, flag: bool)
    requires Inv(w, ds, st, cands)
    requires i < |w| && j < |w| && i != j && !st.marks[i].selected && !st.marks[j].selected && cost == w[i][j]
    ensures Inv(w, ds, State(MarkPair(st.marks, i, j, cost), NoteZero(ds, st.zeroMap, i, cost, flag)),
                NoteCandidate(ds, cands, i, j, cost, flag))
  {
    SelectKeepsPaired(w, st.marks, i, j, cost);
    NoteKeepsZeroMap(w, ds, st, i, j, cost, flag);
    NoteKeepsCandidates(w, ds, st.marks, cands, i, j, cost, flag);
  }

  /** A list of entries is unaffected by the selection of two unselected stripes, and neither of them
      belongs to an entry's pair. */
  lemma UntouchedZeroList(w: Costs, ds: seq<Dist>, ms: seq<Mark>, i: nat, j: nat, cost: nat, pd: seq<nat>, list: seq<nat>)
    requires Shaped(w, ds, ms) && Paired(w, ms) && i < |ms| && j < |ms| && i != j
    requires !ms[i].selected && !ms[j].selected && ZeroList(ds, ms, pd, list)
    ensures ZeroList(ds, MarkPair(ms, i, j, cost), pd, list)
    ensures forall s :: 0 <= s < |list| ==> list[s] != i && list[s] != j
  {
    var ns := MarkPair(ms, i, j, cost);
    forall s | 0 <= s < |list| ensures ZeroEntry(ds, ns, pd, list[s]) && list[s] != i && list[s] != j {
      assert ZeroEntry(ds, ms, pd, list[s]);
    }
    forall s, t | 0 <= s < |list| && 0 <= t < |list| && s != t ensures Apart(ns, list[s], list[t]) {
      assert Apart(ms, list[s], list[t]) && ZeroEntry(ds, ms, pd, list[s]);
    }
  }

  lemma ZeroListCons(w: Costs, ds: seq<Dist>, ms: seq<Mark>, pd: seq<nat>, a: nat, list: seq<nat>)
    requires Shaped(w, ds, ms) && Paired(w, ms) && ZeroList(ds, ms, pd, list)
    requires ZeroEntry(ds, ms, pd, a)
    requires forall s :: 0 <= s < |list| ==> list[s] != a && list[s] != ms[a].matchingIndex
    ensures ZeroList(ds, ms, pd, [a] + list)
  {
    var l' := [a] + list;
    assert MarkedPair(w, ms, a);
    forall s | 0 <= s < |l'| ensures ZeroEntry(ds, ms, pd, l'[s]) {
      assert s > 0 ==> ZeroEntry(ds, ms, pd, list[s - 1]);
    }
    forall s, t | 0 <= s < |l'| && 0 <= t < |l'| && s != t ensures Apart(ms, l'[s], l'[t]) {
      if s > 0 {
        assert ZeroEntry(ds, ms, pd, list[s - 1]) && MarkedPair(w, ms, list[s - 1]);
        assert t > 0 ==> Apart(ms, list[s - 1], list[t - 1]);
      }
    }
  }

  // -------------------------------------------------------------------------------------------
  // One swap
  // -------------------------------------------------------------------------------------------

  /** The situation of a swap: `a`, in a costly pair, and the zero entry `i`. */
  ghost predicate CanRewire(w: Costs, ds: seq<Dist>, st: State, a: nat, i: nat) {
    && FreeMeansAligned(w, ds) && Sized(w, st.marks) && Paired(w, st.marks)
    && Candidate(ds, st.marks, a) && ZeroEntry(ds, st.marks, ds[a].parity, i)
    && st.marks[i].matchingIndex < |w|
    && w[a][st.marks[i].matchingIndex] == 0 && w[st.marks[a].matchingIndex][i] == 0
  }

  /** The four stripes of a swap are different, and all have the same parity placement. */
  lemma FourStripes(w: Costs, ds: seq<Dist>, st: State, a: nat, i: nat)
    requires CanRewire(w, ds, st, a, i)
    ensures var c, j := st.marks[a].matchingIndex, st.marks[i].matchingIndex;
            && a != c && a != i && a != j && c != i && c != j && i != j
            && c < |w| && st.marks[c].selected && st.marks[c].matchingIndex == a
            && st.marks[c].curCost == st.marks[a].curCost
            && st.marks[j].selected && st.marks[j].matchingIndex == i && st.marks[j].curCost == 0
            && ds[c].parity == ds[a].parity == ds[i].parity == ds[j].parity
  {
    var c, j := st.marks[a].matchingIndex, st.marks[i].matchingIndex;
    assert MarkedPair(w, st.marks, a) && MarkedPair(w, st.marks, i);
    assert MarkedPair(w, st.marks, c) && MarkedPair(w, st.marks, j);
    assert w[a][c] == w[c][a] && w[i][j] == w[j][i];
  }

  lemma RewireKeepsPaired(w: Costs, ds: seq<Dist>, st: State, a: nat, i: nat)
    requires CanRewire(w, ds, st, a, i)
    ensures Paired(w, Rewire(ds, st, a, i).marks)
    ensures Unselected(Rewire(ds, st, a, i).marks) == Unselected(st.marks)
  {
    FourStripes(w, ds, st, a, i);
    var ms, ns := st.marks, Rewire(ds, st, a, i).marks;
    var c, j := ms[a].matchingIndex, ms[i].matchingIndex;
    assert w[a][j] == w[j][a] && w[c][i] == w[i][c];
    forall p | 0 <= p < |ns| && ns[p].selected ensures MarkedPair(w, ns, p) {
      if p != a && p != c && p != i && p != j {
        assert MarkedPair(w, ms, p);
      }
    }
  }

  /** A swap frees the costly pair and leaves every other cost as it was. */
  lemma RewireCosts(w: Costs, ds: seq<Dist>, st: State, a: nat, i: nat)
    requires CanRewire(w, ds, st, a, i)
    ensures CurCosts(Rewire(ds, st, a, i).marks) == CurCosts(st.marks)[a := 0][st.marks[a].matchingIndex := 0]
  {
    FourStripes(w, ds, st, a, i);
  }

  lemma RewireKeepsEntry(w: Costs, ds: seq<Dist>, st: State, a: nat, i: nat, pd: seq<nat>, l: nat)
    requires CanRewire(w, ds, st, a, i) && ZeroEntry(ds, st.marks, pd, l)
    ensures ZeroEntry(ds, Rewire(ds, st, a, i).marks, pd, l)
    ensures l != a && l != st.marks[a].matchingIndex
  {
    FourStripes(w, ds, st, a, i);
  }

  /** Entries that stood for different pairs still do. */
  lemma RewireKeepsApart(w: Costs, ds: seq<Dist>, st: State, a: nat, i: nat, l: nat, l': nat)
    requires CanRewire(w, ds, st, a, i)
    requires l < |w| && Apart(st.marks, l, l') && l' != a && l' != st.marks[a].matchingIndex
    requires l != a && l != st.marks[a].matchingIndex && l != st.marks[i].matchingIndex
    ensures Apart(Rewire(ds, st, a, i).marks, l, l')
  {
    FourStripes(w, ds, st, a, i);
  }

  /** The partner of the zero entry is itself no entry. */
  lemma PartnerIsNoEntry(w: Costs, ds: seq<Dist>, st: State, a: nat, i: nat, pd: seq<nat>, list: seq<nat>, s: nat)
    requires CanRewire(w, ds, st, a, i) && ZeroList(ds, st.marks, pd, list) && s < |list|
    requires pd == ds[a].parity ==> i in list
    ensures list[s] != st.marks[i].matchingIndex
  {
  }

  lemma RewireKeepsList(w: Costs, ds: seq<Dist>, st: State, a: nat, i: nat, pd: seq<nat>, list: seq<nat>)
    requires CanRewire(w, ds, st, a, i) && ZeroList(ds, st.marks, pd, list)
    requires pd == ds[a].parity ==> i in list
    ensures ZeroList(ds, Rewire(ds, st, a, i).marks, pd, list)
    ensures forall s :: 0 <= s < |list| ==> list[s] != a && list[s] != st.marks[i].matchingIndex
  {
    var ns := Rewire(ds, st, a, i).marks;
    forall s | 0 <= s < |list|
      ensures ZeroEntry(ds, ns, pd, list[s])
      ensures list[s] != a && list[s] != st.marks[i].matchingIndex && list[s] != st.marks[a].matchingIndex
    {
      assert ZeroEntry(ds, st.marks, pd, list[s]);
      RewireKeepsEntry(w, ds, st, a, i, pd, list[s]);
      PartnerIsNoEntry(w, ds, st, a, i, pd, list, s);
    }
    forall s, t | 0 <= s < |list| && 0 <= t < |list| && s != t ensures Apart(ns, list[s], list[t]) {
      assert Apart(st.marks, list[s], list[t]);
      RewireKeepsApart(w, ds, st, a, i, list[s], list[t]);
    }
  }

  lemma RewireKeepsZeroMap(w: Costs, ds: seq<Dist>, st: State, a: nat, i: nat)
    requires CanRewire(w, ds, st, a, i) && ZeroMapOk(ds, st.marks, st.zeroMap)
    requires ds[a].parity in st.zeroMap && i in st.zeroMap[ds[a].parity]
    ensures ZeroMapOk(ds, Rewire(ds, st, a, i).marks, Rewire(ds, st, a, i).zeroMap)
  {
    var st' := Rewire(ds, st, a, i);
    RewireKeepsPaired(w, ds, st, a, i);
    FourStripes(w, ds, st, a, i);
    forall pd | pd in st'.zeroMap ensures ZeroList(ds, st'.marks, pd, st'.zeroMap[pd]) {
      var list := st.zeroMap[pd];
      assert ZeroList(ds, st.marks, pd, list);
      RewireKeepsList(w, ds, st, a, i, pd, list);
      if pd == ds[a].parity {
        ZeroListCons(w, ds, st'.marks, pd, a, list);
      }
    }
  }

  /** The other candidates keep their costly pairs. */
  lemma RewireKeepsCandidates(w: Costs, ds: seq<Dist>, st: State, a: nat, i: nat, cands: seq<nat>)
    requires CanRewire(w, ds, st, a, i) && CandidatesOk(ds, st.marks, cands)
    requires forall s :: 0 <= s < |cands| ==> cands[s] != a && cands[s] != st.marks[a].matchingIndex
    ensures CandidatesOk(ds, Rewire(ds, st, a, i).marks, cands)
  {
    var ms, ns := st.marks, Rewire(ds, st, a, i).marks;
    FourStripes(w, ds, st, a, i);
    forall s | 0 <= s < |cands| ensures ns[cands[s]] == ms[cands[s]] {
      assert Candidate(ds, ms, cands[s]);
    }
    forall s | 0 <= s < |cands| ensures Candidate(ds, ns, cands[s]) {
      assert Candidate(ds, ms, cands[s]);
    }
    forall s, t | 0 <= s < |cands| && 0 <= t < |cands| && s != t ensures Apart(ns, cands[s], cands[t]) {
      assert Apart(ms, cands[s], cands[t]);
    }
  }

  /** A swap lowers the total cost by exactly the cost of the pair it frees. */
  lemma RewireSaves(w: Costs, ds: seq<Dist>, st: State, a: nat, i: nat)
    requires CanRewire(w, ds, st, a, i)
    ensures Sized(w, Rewire(ds, st, a, i).marks) && Paired(w, Rewire(ds, st, a, i).marks)
    ensures TotalCost(Rewire(ds, st, a, i).marks) == TotalCost(st.marks) - st.marks[a].curCost
  {
    RewireKeepsPaired(w, ds, st, a, i);
    RewireCosts(w, ds, st, a, i);
    FourStripes(w, ds, st, a, i);
    var ns := Rewire(ds, st, a, i).marks;
    TotalTwice(w, st.marks);
    TotalTwice(w, ns);
    SameSelected(st.marks, ns);
    ClearTwo(Selected(st.marks), CurCosts(st.marks), CurCosts(ns), a, st.marks[a].matchingIndex);
  }

  lemma SameSelected(ms: seq<Mark>, ns: seq<Mark>)
    requires |ms| == |ns| && Unselected(ms) == Unselected(ns)
    ensures Selected(ms) == Selected(ns)
  {
    forall p: nat | p < |ms| ensures ms[p].selected == ns[p].selected {
      assert p in Unselected(ms) <==> p in Unselected(ns);
    }
  }

  lemma ClearTwo(s: set<nat>, v: seq<nat>, u: seq<nat>, a: nat, c: nat)
    requires Indices(s, |v|) && a in s && c in s && a != c
    requires v[a] == v[c] && u == v[a := 0][c := 0]
    ensures SetSum(s, u) == SetSum(s, v) - 2 * v[a]
  {
    SetSumRemove(s, v, a);
    SetSumRemove(s - {a}, v, c);
    SetSumRemove(s, u, a);
    SetSumRemove(s - {a}, u, c);
    SetSumSame(s - {a} - {c}, v, u);
  }

  // -------------------------------------------------------------------------------------------
  // One candidate, and all of them
  // -------------------------------------------------------------------------------------------

  ghost function OptimizeOne(w: Costs, ds: seq<Dist>, st: State, x: nat): State
    requires Inv(w, ds, st, [x])
  {
    var pd := ds[x].parity;
    assert Candidate(ds, st.marks, [x][0]);
    if pd !in st.zeroMap then st
    else
      ListIsReady(w, ds, st, pd, [x]);
      FindSwapInList(w, st.marks, x, st.zeroMap[pd]);
      ApplySwap(ds, st, x, FindSwap(w, st.marks, x, st.zeroMap[pd]))
  }

  lemma ListIsReady(w: Costs, ds: seq<Dist>, st: State, pd: seq<nat>, cands: seq<nat>)
    requires Inv(w, ds, st, cands) && pd in st.zeroMap
    ensures ListReady(st.marks, st.zeroMap[pd])
  {
  }

  lemma CandidateHead(w: Costs, ds: seq<Dist>, st: State, x: nat)
    requires Inv(w, ds, st, [x])
    ensures x < |w| && st.marks[x].matchingIndex < |w| && st.marks[st.marks[x].matchingIndex].matchingIndex < |w|
  {
    assert [x][0] == x && Candidate(ds, st.marks, [x][0]) && MarkedPair(w, st.marks, x);
  }

  /** A candidate's pair has no stripe in common with a zero pair. */
  lemma EntryApart(w: Costs, ds: seq<Dist>, st: State, x: nat, list: seq<nat>, t: nat)
    requires Inv(w, ds, st, [x]) && x < |ds| && ds[x].parity in st.zeroMap && list == st.zeroMap[ds[x].parity]
    requires t < |list|
    ensures var y, i := st.marks[x].matchingIndex, list[t];
            && y < |w| && i < |w| && st.marks[i].matchingIndex < |w|
            && x != i && x != st.marks[i].matchingIndex && y != i && y != st.marks[i].matchingIndex
  {
    var y, i := st.marks[x].matchingIndex, list[t];
    assert [x][0] == x && Candidate(ds, st.marks, [x][0]) && MarkedPair(w, st.marks, x) && MarkedPair(w, st.marks, y);
    assert ZeroList(ds, st.marks, ds[x].parity, list) && ZeroEntry(ds, st.marks, ds[x].parity, list[t]);
    assert MarkedPair(w, st.marks, i) && MarkedPair(w, st.marks, st.marks[i].matchingIndex);
  }

  /** The pairs of the list have no stripe in common with the pair of `x`. */
  ghost predicate ScanReady(ms: seq<Mark>, x: nat, list: seq<nat>) {
    && ListReady(ms, list)
    && x < |ms| && ms[x].matchingIndex < |ms| && ms[ms[x].matchingIndex].matchingIndex < |ms|
    && forall l :: l in list ==>
         var y, j := ms[x].matchingIndex, ms[l].matchingIndex;
         x != l && x != j && y != l && y != j
  }

  lemma ListIsScanReady(w: Costs, ds: seq<Dist>, st: State, x: nat, list: seq<nat>)
    requires Inv(w, ds, st, [x]) && x < |ds| && ds[x].parity in st.zeroMap && list == st.zeroMap[ds[x].parity]
    ensures ScanReady(st.marks, x, list)
  {
    ListIsReady(w, ds, st, ds[x].parity, [x]);
    CandidateHead(w, ds, st, x);
    forall t | 0 <= t < |list|
      ensures var y, j := st.marks[x].matchingIndex, st.marks[list[t]].matchingIndex;
              x != list[t] && x != j && y != list[t] && y != j
    {
      EntryApart(w, ds, st, x, list, t);
    }
  }

  /** What the search for a swap finds: the first entry that allows one, if there is any. */
  lemma {:induction false} FindSwapInList(w: Costs, ms: seq<Mark>, x: nat, list: seq<nat>)
    requires Sized(w, ms) && x < |ms| && ms[x].matchingIndex < |ms| && ListReady(ms, list)
    ensures var y, r := ms[x].matchingIndex, FindSwap(w, ms, x, list);
            match r
            case NoSwap => forall i :: i in list ==> !Swappable(w, ms, x, i)
            case Straight(i) => i in list && w[x][i] == 0 && w[y][ms[i].matchingIndex] == 0
            case Crossed(i) => i in list && w[x][ms[i].matchingIndex] == 0 && w[y][i] == 0
    decreases |list|
  {
    if list != [] {
      assert forall l :: l in list[1..] ==> l in list;
      FindSwapInList(w, ms, x, list[1..]);
      assert forall i :: i in list ==> i == list[0] || i in list[1..];
    }
  }

  /** One turn of the scan: the entry at `t` is tried before the ones after it. */
  lemma FindSwapStep(w: Costs, ms: seq<Mark>, x: nat, list: seq<nat>, t: nat)
    requires Sized(w, ms) && t < |list| && ScanReady(ms, x, list[t..])
    ensures list[t] < |ms| && ms[list[t]].matchingIndex < |ms|
    ensures ScanReady(ms, x, [list[t]]) && ScanReady(ms, x, list[t + 1..])
    ensures FindSwap(w, ms, x, list[t..])
         == if TryOne(w, ms, x, list[t]).NoSwap? then FindSwap(w, ms, x, list[t + 1..]) else TryOne(w, ms, x, list[t])
  {
    var rest := list[t..];
    assert rest[0] == list[t] && rest[1..] == list[t + 1..];
    assert rest[0] in rest && forall l :: l in rest[1..] ==> l in rest;
    assert [list[t]][0] == list[t];
  }

  ghost predicate Swappable(w: Costs, ms: seq<Mark>, x: nat, i: nat)
    requires Sized(w, ms) && x < |ms| && ms[x].matchingIndex < |ms|
    requires i < |ms| && ms[i].matchingIndex < |ms|
  {
    var y, j := ms[x].matchingIndex, ms[i].matchingIndex;
    (w[x][i] == 0 && w[y][j] == 0) || (w[x][j] == 0 && w[y][i] == 0)
  }

  /** The same stripes are matched, and none at a higher cost. */
  ghost predicate NoWorse(ms: seq<Mark>, ns: seq<Mark>) {
    && |ms| == |ns| && Unselected(ms) == Unselected(ns)
    && forall p :: 0 <= p < |ms| ==> ns[p].curCost <= ms[p].curCost
  }

  ghost function Saved(st: State, st': State, x: nat): nat
    requires x < |st.marks|
  {
    if st == st' then 0 else st.marks[x].curCost
  }

  lemma InvHead(w: Costs, ds: seq<Dist>, st: State, x: nat, rest: seq<nat>)
    requires Inv(w, ds, st, [x] + rest)
    ensures Inv(w, ds, st, [x]) && Inv(w, ds, st, rest)
    ensures Candidate(ds, st.marks, x) && MarkedPair(w, st.marks, x)
    ensures forall s :: 0 <= s < |rest| ==> rest[s] != x && rest[s] != st.marks[x].matchingIndex
  {
    var all := [x] + rest;
    assert all[0] == x && Candidate(ds, st.marks, all[0]);
    forall s | 0 <= s < |rest|
      ensures Candidate(ds, st.marks, rest[s]) && rest[s] != x && rest[s] != st.marks[x].matchingIndex
    {
      assert all[s + 1] == rest[s] && Candidate(ds, st.marks, all[s + 1]) && Apart(st.marks, all[0], all[s + 1]);
    }
    forall s, t | 0 <= s < |rest| && 0 <= t < |rest| && s != t ensures Apart(st.marks, rest[s], rest[t]) {
      assert Apart(st.marks, all[s + 1], all[t + 1]);
    }
  }

  /** The swap that `a` makes with the zero entry `i`, for either member `a` of a candidate pair. */
  lemma SwapKeeps(w: Costs, ds: seq<Dist>, st: State, x: nat, a: nat, i: nat, rest: seq<nat>)
    requires Inv(w, ds, st, [x] + rest)
    requires x < |w| && (a == x || a == st.marks[x].matchingIndex) && CanRewire(w, ds, st, a, i)
    requires ds[a].parity in st.zeroMap && i in st.zeroMap[ds[a].parity]
    ensures var st' := Rewire(ds, st, a, i);
            && Inv(w, ds, st', rest) && NoWorse(st.marks, st'.marks) && SameCosts(st.marks, st'.marks, rest)
            && TotalCost(st'.marks) == TotalCost(st.marks) - st.marks[x].curCost
  {
    InvHead(w, ds, st, x, rest);
    FourStripes(w, ds, st, a, i);
    RewireKeepsPaired(w, ds, st, a, i);
    RewireKeepsZeroMap(w, ds, st, a, i);
    RewireKeepsCandidates(w, ds, st, a, i, rest);
    RewireSaves(w, ds, st, a, i);
    RewireLowers(w, ds, st, a, i, rest);
  }

  /** The candidates in `list` cost what they did. */
  ghost predicate SameCosts(ms: seq<Mark>, ns: seq<Mark>, list: seq<nat>) {
    |ms| == |ns| && forall s :: 0 <= s < |list| ==> list[s] < |ms| && ns[list[s]].curCost == ms[list[s]].curCost
  }

  lemma RewireLowers(w: Costs, ds: seq<Dist>, st: State, a: nat, i: nat, rest: seq<nat>)
    requires CanRewire(w, ds, st, a, i)
    requires forall s :: 0 <= s < |rest| ==> rest[s] < |w| && rest[s] != a && rest[s] != st.marks[a].matchingIndex
    ensures NoWorse(st.marks, Rewire(ds, st, a, i).marks)
    ensures SameCosts(st.marks, Rewire(ds, st, a, i).marks, rest)
  {
    var ms, ns := st.marks, Rewire(ds, st, a, i).marks;
    RewireKeepsPaired(w, ds, st, a, i);
    RewireCosts(w, ds, st, a, i);
    forall p | 0 <= p < |w|
      ensures ns[p].curCost == if p == a || p == ms[a].matchingIndex then 0 else ms[p].curCost
    {
      assert ns[p].curCost == CurCosts(ns)[p] && ms[p].curCost == CurCosts(ms)[p];
    }
  }

  /** Handling one candidate keeps the pairing and the remaining bookkeeping intact, makes no stripe worse
      and leaves the other candidates' costs alone, and saves the candidate's cost exactly when it
      swaps. */
  lemma OptimizeOneKeeps(w: Costs, ds: seq<Dist>, st: State, x: nat, rest: seq<nat>)
    requires Inv(w, ds, st, [x] + rest)
    ensures x < |w| && Inv(w, ds, st, [x])
    ensures var st' := OptimizeOne(w, ds, st, x);
            && Inv(w, ds, st', rest) && NoWorse(st.marks, st'.marks) && SameCosts(st.marks, st'.marks, rest)
            && TotalCost(st'.marks) == TotalCost(st.marks) - Saved(st, st', x)
  {
    InvHead(w, ds, st, x, rest);
    var ms, pd := st.marks, ds[x].parity;
    if pd in st.zeroMap {
      var list := st.zeroMap[pd];
      ListIsReady(w, ds, st, pd, [x]);
      FindSwapInList(w, ms, x, list);
      var r := FindSwap(w, ms, x, list);
      if !r.NoSwap? {
        var a := if r.Straight? then ms[x].matchingIndex else x;
        SwapIsLegal(w, ds, st, x, a, r.i);
        SwapKeeps(w, ds, st, x, a, r.i, rest);
        assert OptimizeOne(w, ds, st, x) == Rewire(ds, st, a, r.i);
        RewireChanges(w, ds, st, x, a, r.i);
      }
    }
  }

  lemma RewireChanges(w: Costs, ds: seq<Dist>, st: State, x: nat, a: nat, i: nat)
    requires CanRewire(w, ds, st, a, i) && x < |w| && (a == x || st.marks[a].matchingIndex == x)
    requires Candidate(ds, st.marks, x)
    ensures Rewire(ds, st, a, i) != st
  {
    RewireCosts(w, ds, st, a, i);
    assert CurCosts(Rewire(ds, st, a, i).marks)[x] == 0;
  }

  /** A candidate is left alone only when no free pair of its parity placement could be re-paired with
      it. */
  lemma UnswappedIsStuck(w: Costs, ds: seq<Dist>, st: State, x: nat, i: nat)
    requires Inv(w, ds, st, [x]) && OptimizeOne(w, ds, st, x) == st
    requires x < |ds| && ds[x].parity in st.zeroMap && i in st.zeroMap[ds[x].parity]
    ensures x < |w| && st.marks[x].matchingIndex < |w| && i < |w| && st.marks[i].matchingIndex < |w|
    ensures !Swappable(w, st.marks, x, i)
  {
    var ms, list := st.marks, st.zeroMap[ds[x].parity];
    assert [x] + [] == [x];
    InvHead(w, ds, st, x, []);
    ListIsReady(w, ds, st, ds[x].parity, [x]);
    FindSwapInList(w, ms, x, list);
    assert FindSwap(w, ms, x, list).NoSwap?;
  }

  lemma SwapIsLegal(w: Costs, ds: seq<Dist>, st: State, x: nat, a: nat, i: nat)
    requires Inv(w, ds, st, [x]) && Candidate(ds, st.marks, x) && MarkedPair(w, st.marks, x)
    requires a == x || a == st.marks[x].matchingIndex
    requires ds[x].parity in st.zeroMap && i in st.zeroMap[ds[x].parity]
    requires i < |w| && st.marks[i].matchingIndex < |w|
    requires a < |w| && st.marks[a].matchingIndex < |w|
    requires w[a][st.marks[i].matchingIndex] == 0 && w[st.marks[a].matchingIndex][i] == 0
    ensures CanRewire(w, ds, st, a, i) && ds[a].parity == ds[x].parity
  {
    var pd := ds[x].parity;
    var list := st.zeroMap[pd];
    assert ZeroList(ds, st.marks, pd, list);
    var s :| 0 <= s < |list| && list[s] == i;
    assert ZeroEntry(ds, st.marks, pd, list[s]);
    assert MarkedPair(w, st.marks, a);
    assert w[x][st.marks[x].matchingIndex] == w[st.marks[x].matchingIndex][x];
  }

  /** `make_optimization`, candidate by candidate. */
  ghost function OptimizeAll(w: Costs, ds: seq<Dist>, st: State, cands: seq<nat>): State
    requires Inv(w, ds, st, cands)
    decreases |cands|
  {
    if cands == [] then st
    else
      assert cands == [cands[0]] + cands[1..];
      OptimizeOneKeeps(w, ds, st, cands[0], cands[1..]);
      OptimizeAll(w, ds, OptimizeOne(w, ds, st, cands[0]), cands[1..])
  }

  /** The candidates that find a swap. */
  ghost function Swapped(w: Costs, ds: seq<Dist>, st: State, cands: seq<nat>): (swapped: seq<nat>)
    requires Inv(w, ds, st, cands)
    ensures forall x :: x in swapped ==> x in cands
    decreases |cands|
  {
    if cands == [] then []
    else
      assert cands == [cands[0]] + cands[1..];
      OptimizeOneKeeps(w, ds, st, cands[0], cands[1..]);
      var next := OptimizeOne(w, ds, st, cands[0]);
      (if next == st then [] else [cands[0]]) + Swapped(w, ds, next, cands[1..])
  }

  /** What the stripes in `list` cost together. */
  function CostOf(ms: seq<Mark>, list: seq<nat>): nat {
    if list == [] then 0 else (if list[0] < |ms| then ms[list[0]].curCost else 0) + CostOf(ms, list[1..])
  }

  lemma {:induction false} CostOfSame(ms: seq<Mark>, ns: seq<Mark>, rest: seq<nat>, list: seq<nat>)
    requires SameCosts(ms, ns, rest) && forall x :: x in list ==> x in rest
    ensures CostOf(ns, list) == CostOf(ms, list)
  {
    if list != [] {
      assert list[0] in rest && forall x :: x in list[1..] ==> x in list;
      CostOfSame(ms, ns, rest, list[1..]);
    }
  }

  lemma OptimizeStep(w: Costs, ds: seq<Dist>, st: State, cands: seq<nat>, t: nat)
    requires t < |cands| && Inv(w, ds, st, cands[t..])
    ensures Inv(w, ds, st, [cands[t]])
    ensures var next := OptimizeOne(w, ds, st, cands[t]);
            && Inv(w, ds, next, cands[t + 1..])
            && OptimizeAll(w, ds, next, cands[t + 1..]) == OptimizeAll(w, ds, st, cands[t..])
  {
    assert cands[t..] == [cands[t]] + cands[t + 1..] && cands[t..][1..] == cands[t + 1..];
    OptimizeOneKeeps(w, ds, st, cands[t], cands[t + 1..]);
  }

  /** `make_optimization` keeps the pairing, its true costs and `zero_map`'s meaning, makes no stripe
      worse, and lowers the total by exactly what the candidates that swap cost before. */
  lemma {:induction false} OptimizeAllKeeps(w: Costs, ds: seq<Dist>, st: State, cands: seq<nat>)
    requires Inv(w, ds, st, cands)
    ensures var st' := OptimizeAll(w, ds, st, cands);
            && Inv(w, ds, st', []) && NoWorse(st.marks, st'.marks)
            && TotalCost(st'.marks) == TotalCost(st.marks) - CostOf(st.marks, Swapped(w, ds, st, cands))
    decreases |cands|
  {
    if cands != [] {
      var x, rest := cands[0], cands[1..];
      assert cands == [x] + rest;
      OptimizeOneKeeps(w, ds, st, x, rest);
      var next := OptimizeOne(w, ds, st, x);
      OptimizeAllKeeps(w, ds, next, rest);
      var swapped := Swapped(w, ds, next, rest);
      CostOfSame(st.marks, next.marks, rest, swapped);
      CostOfHead(st.marks, next == st, x, swapped);
    }
  }

  lemma CostOfHead(ms: seq<Mark>, skip: bool, x: nat, list: seq<nat>)
    requires x < |ms|
    ensures CostOf(ms, (if skip then [] else [x]) + list) == (if skip then 0 else ms[x].curCost) + CostOf(ms, list)
  {
    if skip {
      assert [] + list == list;
    } else {
      assert ([x] + list)[1..] == list;
    }
  }

  /** Lower costs block no more pairs. */
  lemma NoWorseKeepsStable(w: Costs, ms: seq<Mark>, ns: seq<Mark>)
    requires Sized(w, ms) && Sized(w, ns) && NoWorse(ms, ns) && Stable(w, ms) && Paired(w, ns)
    ensures Stable(w, ns)
  {
    forall p, q | 0 <= p < |ns| && 0 <= q < |ns| && p != q ensures Content(w, ns, p, q) {
      assert Content(w, ms, p, q);
      assert p in Unselected(ms) <==> p in Unselected(ns);
      assert q in Unselected(ms) <==> q in Unselected(ns);
    }
  }
}
