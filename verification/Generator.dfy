/**
 The matching generator (src/matching_generator.cc): StripeMerge-G (`BasicGreedy`) and StripeMerge-P
 (`DistBasedSearch`).
 */
module Generator {
  import opened BitTricks
  import opened Stripes
  import opened Keys
  import opened Matchings
  import opened CostTable
  import opened SearchIndex
  import opened Optimizer
  import opened SearchSteps
  import opened GreedySteps
  import opened GreedyOrder
  import opened Bookkeeping
  import opened OptimizerEnd
  import opened PlainSearch
  import opened Migration
  import opened Transfers
  import opened Schemes

  class MatchingGenerator {
    const c: Params
    const ds: seq<Dist>
    /** The costs of all pairs; the program computes them on demand. */
    ghost const w: Costs
    var marks: seq<Mark>
    var costTable: seq<nat>
    var remaining: seq<nat>
    var parityMap: Lists
    var partialMap: Lists
    var zeroMap: ZeroMap
    var candidates: seq<nat>
    var blocksToSent: seq<Transfer>

    /** The parameters are in the range that the program's 8-bit counters and masks can hold. */
    ghost predicate Problem() {
      && 1 <= c.m <= 7 && c.k + c.m <= 254
      && Prices(c, ds, w) && CostsAtMost(w, c.k + c.m) && FreeMeansAligned(w, ds)
    }

    ghost predicate Ready()
      reads this`costTable, this`marks
    {
      Problem() && TableOk(w, costTable) && Sized(w, marks)
    }

    /** The constructor followed by `input_stripes`. */
    constructor (c: Params, ds: seq<Dist>)
      requires 1 <= c.m <= 7 && c.k + c.m <= 254 && AllPlaced(c, ds)
      ensures this.c == c && this.ds == ds
      ensures Ready() && Untouched()
    {
      this.c := c;
      this.ds := ds;
      this.w := CostMatrix(c, ds);
      this.marks := seq(|ds|, _ => Mark(NO_INDEX, NO_COST, false));
      var n := |ds|;
      this.costTable := seq(if n == 0 then 0 else n * (n - 1) / 2, _ => NO_COST);
      this.remaining, this.candidates, this.blocksToSent := [], [], [];
      this.parityMap, this.partialMap, this.zeroMap := map[], map[], map[];
      new;
      CostMatrixIsPrices(c, ds);
      TableSize(n);
      EmptyTable(w, costTable);
    }

    /** No stripe has been matched and no index has been built. */
    ghost predicate Untouched()
      reads this
    {
      && (forall p :: 0 <= p < |marks| ==> marks[p] == Mark(NO_INDEX, NO_COST, false))
      && remaining == [] && candidates == [] && blocksToSent == []
      && parityMap == map[] && partialMap == map[] && zeroMap == map[]
    }

    /** `get_cost`: the memoised cost of a pair, in either order. */
    method GetCost(i: nat, j: nat) returns (cost: nat)
      requires Ready() && i < |ds| && j < |ds| && i != j
      modifies `costTable
      ensures Ready()
      ensures cost == w[i][j]
    {
      var lo, hi := i, j;
      if lo > hi {
        lo, hi := hi, lo;
      }
      var index := TriIndex(|ds|, lo, hi);
      TriIndexInjective(|w|, lo, hi, lo, hi);
      assert CellOk(w, costTable, lo, hi);
      cost := costTable[index];
      if cost == NO_COST {
        cost := ComputeCost(c, ds[lo], ds[hi]);
        assert cost == w[lo][hi];
        FillKeepsTable(w, costTable, lo, hi, index);
        costTable := costTable[index := cost];
      }
    }

    /** `mark_matched`. */
    method MarkMatched(i: nat, j: nat, cost: nat, flag: bool)
      requires i < |marks| == |ds| && j < |marks|
      modifies `marks, `zeroMap, `candidates
      ensures marks == MarkPair(old(marks), i, j, cost)
      ensures zeroMap == NoteZero(ds, old(zeroMap), i, cost, flag)
      ensures candidates == NoteCandidate(ds, old(candidates), i, j, cost, flag)
      ensures if flag && cost == 0
              then zeroMap == old(zeroMap)[ds[i].parity :=
                     [i] + if ds[i].parity in old(zeroMap) then old(zeroMap)[ds[i].parity] else []]
              else zeroMap == old(zeroMap)
      ensures if flag && cost > 0 && ds[i].parity == ds[j].parity then candidates == old(candidates) + [i]
              else candidates == old(candidates)
    {
      marks := marks[i := Mark(j, cost, true)];
      marks := marks[j := Mark(i, cost, true)];
      if flag {
        if cost == 0 {
          var pd := ds[i].parity;
          if pd in zeroMap {
            zeroMap := zeroMap[pd := [i] + zeroMap[pd]];
          } else {
            zeroMap := zeroMap[pd := [i]];
            assert [i] + [] == [i];
          }
        } else if ds[i].parity == ds[j].parity {
          candidates := candidates + [i];
        }
      }
    }

    // -----------------------------------------------------------------------------------------
    // Searching one list
    // -----------------------------------------------------------------------------------------

    /** The body of the loop of `single_search`. */
    method ScanOne(index: nat, domain: seq<nat>, t: nat, target: nat, minCost: nat, minIndex: nat, queue: seq<nat>,
                   selfSeen: bool)
      returns (minCost': nat, minIndex': nat, queue': seq<nat>, selfSeen': bool)
      requires Ready() && index < |ds| && !marks[index].selected && t < |domain| && domain[t] < |ds| && minCost != target
      requires Scanning(w, marks, index, domain, t, target, Choice(minCost, minIndex), queue, selfSeen)
      modifies `costTable
      ensures Ready()
      ensures Scanning(w, marks, index, domain, t + 1, target, Choice(minCost', minIndex'), queue', selfSeen')
    {
      minCost', minIndex', queue', selfSeen' := minCost, minIndex, queue, selfSeen;
      var j := domain[t];
      if marks[j].selected {
        ScanSelected(w, marks, index, domain, t, target, Choice(minCost, minIndex), queue, selfSeen);
        queue' := queue + [j];
      } else if j == index {
        ScanSelf(w, marks, index, domain, t, target, Choice(minCost, minIndex), queue, selfSeen);
        selfSeen' := true;
      } else {
        ScanPartner(w, marks, index, domain, t, target, Choice(minCost, minIndex), queue, selfSeen);
        var cost := GetCost(index, j);
        if minCost > cost {
          minCost', minIndex' := cost, j;
        }
      }
    }

    /** The loop of `single_search`: it stops early at a partner of the target cost. */
    method Scan(index: nat, domain: seq<nat>, target: nat)
      returns (minCost: nat, minIndex: nat, queue: seq<nat>, selfSeen: bool, ghost seen: seq<nat>)
      requires Ready() && index < |ds| && !marks[index].selected && target < marks[index].curCost
      requires forall x :: x in domain ==> x < |ds|
      modifies `costTable
      ensures Ready()
      ensures seen <= domain && (minCost != target ==> seen == domain)
      ensures Best(w, marks, index, seen, minCost, minIndex) && SelectedOf(marks, seen, queue)
      ensures selfSeen <==> index in seen
      ensures Choice(minCost, minIndex)
           == BestOf(w, marks, index, domain, target, Choice(marks[index].curCost, NO_INDEX))
    {
      minCost, minIndex, queue, selfSeen := marks[index].curCost, NO_INDEX, [], false;
      var t := 0;
      ScanStarts(w, marks, index, domain, target);
      while t < |domain| && minCost != target
        invariant t <= |domain| && Ready()
        invariant Scanning(w, marks, index, domain, t, target, Choice(minCost, minIndex), queue, selfSeen)
        decreases |domain| - t
      {
        assert domain[t] in domain;
        minCost, minIndex, queue, selfSeen := ScanOne(index, domain, t, target, minCost, minIndex, queue, selfSeen);
        t := t + 1;
      }
      seen := domain[..t];
      ScanEnds(w, marks, index, domain, t, target, Choice(minCost, minIndex), queue, selfSeen);
    }

    /** `single_search`: on success the two new partners leave this list; either way the selected
        stripes that were passed leave it too. */
    method SingleSearch(index: nat, domain: seq<nat>, target: nat, ghost goal: Hunt)
      returns (found: bool, domain': seq<nat>, ghost gone: set<nat>)
      requires Ready() && index < |ds| && !marks[index].selected && target < marks[index].curCost
      requires Distinct(domain) && forall x :: x in domain ==> x < |ds|
      requires Cached(w, marks, index) && Floor(w, marks, target)
      requires goal == SearchList(w, marks, index, domain, target)
      modifies `costTable, `marks
      ensures Ready() && OnlyTentative(old(marks), marks, index)
      ensures domain' == Without(domain, gone)
      ensures ListSearched(w, marks, index, target, domain, gone, found)
      ensures Hunt(marks, found) == goal
    {
      var minCost, minIndex, queue, selfSeen;
      ghost var seen;
      minCost, minIndex, queue, selfSeen, seen := Scan(index, domain, target);
      found := minCost == target;
      domain' := CleanUp(domain, found, minIndex, index, selfSeen, queue);
      gone := Cleaned(found, minIndex, index, selfSeen, queue);
      ghost var before := marks;
      if minCost < marks[index].curCost {
        marks := marks[index := Mark(minIndex, minCost, false)];
      }
      ScanMeans(w, before, marks, index, target, domain, seen, minCost, minIndex, queue, gone);
    }

    /** What a search needs: an unselected stripe whose tentative candidate costs more than the target,
        no cheaper unselected pair, and an index that lists every unselected stripe. */
    ghost predicate CanSearch(index: nat, target: nat)
      reads this`marks, this`costTable, this`parityMap, this`partialMap
    {
      && Ready() && index < |ds| && !marks[index].selected && target < marks[index].curCost
      && Cached(w, marks, index) && Floor(w, marks, target)
      && IndexOk(c.m, ds, parityMap, partialMap, Unselected(marks))
    }

    /** Searching the list of a mask's key. */
    method SearchKey(index: nat, target: nat, mask: nat, key: seq<nat>, ghost goal: Hunt) returns (found: bool)
      requires CanSearch(index, target) && 1 <= mask < Pow2(c.m)
      requires key == PartialKey(ds[index].parity, mask) && key in partialMap
      requires goal == SearchList(w, marks, index, partialMap[key], target)
      modifies `costTable, `marks, `partialMap
      ensures Ready() && OnlyTentative(old(marks), marks, index)
      ensures Searched(w, marks, index, target, found)
      ensures IndexOk(c.m, ds, parityMap, partialMap, LiveAfter(marks, index, found))
      ensures !found ==> CanSearch(index, target) && MaskDone(w, ds, Unselected(marks), index, target, mask)
      ensures Hunt(marks, found) == goal
    {
      assert PartialListOk(ds, key, partialMap[key]);
      ghost var before := marks;
      var list;
      ghost var gone;
      found, list, gone := SingleSearch(index, partialMap[key], target, goal);
      TentativeKeeps(w, before, marks, index);
      MaskSearched(c, ds, w, marks, parityMap, partialMap, index, target, mask, key, gone, found);
      partialMap := partialMap[key := list];
    }

    /** One turn of the mask loop of `search_for_matching`. */
    method SearchMask(index: nat, target: nat, mask: nat, ghost goal: Hunt) returns (found: bool)
      requires CanSearch(index, target) && 1 <= mask < Pow2(c.m)
      requires goal == SearchList(w, marks, index, AgreeingStripes(ds, ds[index].parity, mask, |ds|), target)
      modifies `costTable, `marks, `partialMap
      ensures Ready() && OnlyTentative(old(marks), marks, index)
      ensures Searched(w, marks, index, target, found)
      ensures IndexOk(c.m, ds, parityMap, partialMap, LiveAfter(marks, index, found))
      ensures !found ==> CanSearch(index, target) && MaskDone(w, ds, Unselected(marks), index, target, mask)
      ensures Hunt(marks, found) == goal
    {
      MaskListSearch(c.m, ds, w, marks, parityMap, partialMap, index, mask, target, goal);
      var key := MakeKey(ds[index].parity, mask);
      if key in partialMap && |partialMap[key]| > 1 {
        found := SearchKey(index, target, mask, key, goal);
      } else {
        found := false;
        ShortList(c, ds, w, marks, parityMap, partialMap, index, target, mask);
      }
    }

    /** Searching the list of a parity placement. */
    method SearchPlacement(index: nat, pd: seq<nat>, ghost goal: Hunt) returns (found: bool)
      requires CanSearch(index, 0) && pd == ds[index].parity && pd in parityMap
      requires goal == SearchList(w, marks, index, parityMap[pd], 0)
      modifies `costTable, `marks, `parityMap
      ensures Ready() && OnlyTentative(old(marks), marks, index)
      ensures Searched(w, marks, index, 0, found)
      ensures IndexOk(c.m, ds, parityMap, partialMap, LiveAfter(marks, index, found))
      ensures !found ==> AllAbove(w, Unselected(marks), index, 0)
      ensures Hunt(marks, found) == goal
    {
      assert ParityListOk(ds, pd, parityMap[pd]);
      ghost var before := marks;
      var list;
      ghost var gone;
      found, list, gone := SingleSearch(index, parityMap[pd], 0, goal);
      TentativeKeeps(w, before, marks, index);
      ParitySearched(c, ds, w, marks, parityMap, partialMap, index, pd, gone, found);
      parityMap := parityMap[pd := list];
    }

    /** `search_for_matching` at cost zero. */
    method SearchParity(index: nat, ghost goal: Hunt) returns (found: bool)
      requires CanSearch(index, 0) && goal == SearchAll(w, ds, c.m, marks, index, 0)
      modifies `costTable, `marks, `parityMap
      ensures Ready() && OnlyTentative(old(marks), marks, index)
      ensures Searched(w, marks, index, 0, found)
      ensures IndexOk(c.m, ds, parityMap, partialMap, LiveAfter(marks, index, found))
      ensures !found ==> AllAbove(w, Unselected(marks), index, 0)
      ensures Hunt(marks, found) == goal
    {
      ParityListSearch(c.m, ds, w, marks, parityMap, partialMap, index, goal);
      var pd := ds[index].parity;
      if pd in parityMap && |parityMap[pd]| > 1 {
        found := SearchPlacement(index, pd, goal);
      } else {
        found := false;
        ShortParityList(c, ds, w, marks, parityMap, partialMap, index);
      }
    }

    /** One turn of the mask loop of `search_for_matching`, and the step to the next mask. */
    method TryMask(index: nat, target: nat, comb: nat, ghost first: seq<Mark>, ghost goal: Hunt)
      returns (found: bool, comb': nat)
      requires Ready() && Masked(c, ds, w, first, marks, parityMap, partialMap, index, target, comb, false)
      requires comb < Pow2(c.m) && Leads(w, ds, c.m, marks, index, target, comb, false, goal)
      modifies `costTable, `marks, `partialMap
      ensures Ready() && Masked(c, ds, w, first, marks, parityMap, partialMap, index, target, comb', found)
      ensures comb < comb' && Leads(w, ds, c.m, marks, index, target, comb', found, goal)
    {
      MasksFit(c.m);
      ghost var h := OneMask(w, ds, c.m, marks, index, target, INT_WIDTH, comb, goal);
      ghost var before, lists := marks, partialMap;
      found := SearchMask(index, target, comb, h);
      MaskTurn(c, ds, w, first, before, marks, parityMap, lists, partialMap, index, target, comb, found);
      comb' := NextComb(INT_WIDTH, comb);
    }

    /** The mask loop of `search_for_matching`. */
    method MaskLoop(index: nat, target: nat, first: nat, ghost goal: Hunt) returns (found: bool, comb: nat)
      requires Ready() && Masked(c, ds, w, marks, marks, parityMap, partialMap, index, target, first, false)
      requires Leads(w, ds, c.m, marks, index, target, first, false, goal)
      modifies `costTable, `marks, `partialMap
      ensures Ready() && Masked(c, ds, w, old(marks), marks, parityMap, partialMap, index, target, comb, found)
      ensures Leads(w, ds, c.m, marks, index, target, comb, found, goal) && (found || comb >= Pow2(c.m) - 1)
    {
      var allOne := Pow2(c.m) - 1;
      found, comb := false, first;
      ghost var before := marks;
      while !found && comb < allOne
        invariant Ready() && Masked(c, ds, w, before, marks, parityMap, partialMap, index, target, comb, found)
        invariant Leads(w, ds, c.m, marks, index, target, comb, found, goal)
        decreases allOne - comb
      {
        found, comb := TryMask(index, target, comb, before, goal);
      }
    }

    /** `search_for_matching` at a positive cost: all masks of `m - target` parity positions, until one
        of their lists has a partner. */
    method SearchMasks(index: nat, target: nat, ghost goal: Hunt) returns (found: bool)
      requires CanSearch(index, target) && 1 <= target < c.m && goal == SearchAll(w, ds, c.m, marks, index, target)
      modifies `costTable, `marks, `partialMap
      ensures Ready() && OnlyTentative(old(marks), marks, index)
      ensures Searched(w, marks, index, target, found)
      ensures IndexOk(c.m, ds, parityMap, partialMap, LiveAfter(marks, index, found))
      ensures !found ==> AllAbove(w, Unselected(marks), index, target)
      ensures Hunt(marks, found) == goal
    {
      ghost var before := marks;
      ghost var first := BeginMasks(c, ds, w, marks, parityMap, partialMap, index, target, goal);
      var comb;
      found, comb := MaskLoop(index, target, Pow2(c.m - target) - 1, goal);
      EndMasks(c, ds, w, before, marks, parityMap, partialMap, index, target, comb, found, goal);
    }

    /** `search_for_matching`. */
    method SearchForMatching(index: nat, target: nat, ghost goal: Hunt) returns (found: bool)
      requires CanSearch(index, target) && target < c.m && goal == SearchAll(w, ds, c.m, marks, index, target)
      modifies `costTable, `marks, `parityMap, `partialMap
      ensures Ready() && OnlyTentative(old(marks), marks, index)
      ensures Searched(w, marks, index, target, found)
      ensures IndexOk(c.m, ds, parityMap, partialMap, LiveAfter(marks, index, found))
      ensures !found ==> AllAbove(w, Unselected(marks), index, target)
      ensures Hunt(marks, found) == goal
    {
      if target == 0 {
        found := SearchParity(index, goal);
      } else {
        found := SearchMasks(index, target, goal);
      }
    }

    // -----------------------------------------------------------------------------------------
    // One round of the indexed search
    // -----------------------------------------------------------------------------------------

    ghost predicate Searching()
      reads this
    {
      Ready() && SearchInv(c, ds, w, State(marks, zeroMap), candidates, parityMap, partialMap)
    }

    /** The choice of a partner in the main loop: a tentative candidate of this round's cost if it is
        still free, else a search. */
    method FindPartner(cur: nat, cost: nat, ghost goal: Hunt) returns (succeed: bool)
      requires Searching() && cur < |ds| && !marks[cur].selected
      requires cost < c.m && Floor(w, marks, cost) && marks[cur].curCost >= cost
      requires goal == FindOne(w, ds, c.m, marks, cur, cost)
      modifies `costTable, `marks, `parityMap, `partialMap
      ensures Ready() && OnlyTentative(old(marks), marks, cur)
      ensures Searched(w, marks, cur, cost, succeed)
      ensures IndexOk(c.m, ds, parityMap, partialMap, LiveAfter(marks, cur, succeed))
      ensures !succeed ==> AllAbove(w, Unselected(marks), cur, cost)
      ensures Hunt(marks, succeed) == goal
    {
      assert Cached(w, marks, cur);
      if marks[cur].curCost == cost {
        if !marks[marks[cur].matchingIndex].selected {
          succeed := true;
          FewerLive(c.m, ds, parityMap, partialMap, Unselected(marks), LiveAfter(marks, cur, true));
        } else {
          ghost var before := marks;
          marks := marks[cur := Mark(NO_INDEX, NO_COST, false)];
          ghost var reset := marks;
          TentativeKeeps(w, before, marks, cur);
          succeed := SearchForMatching(cur, cost, goal);
          OnlyTentativeTrans(before, reset, marks, cur);
        }
      } else {
        succeed := SearchForMatching(cur, cost, goal);
      }
    }

    ghost function Now(): Progress
      reads this`marks, this`zeroMap, this`candidates
    {
      Progress(marks, zeroMap, candidates)
    }

    /** The body of the main loop for an unselected stripe. */
    method ProcessStripe(cur: nat, cost: nat, ghost goal: Progress) returns (succeed: bool)
      requires Searching() && cur < |ds| && !marks[cur].selected
      requires cost < c.m && Floor(w, marks, cost) && marks[cur].curCost >= cost
      requires goal == Visited(w, ds, c.m, Now(), cur, cost)
      modifies `costTable, `marks, `parityMap, `partialMap, `zeroMap, `candidates
      ensures Searching() && Stepped(old(marks), marks, cur)
      ensures if succeed then marks[cur].selected else Exhausted(w, marks, cur, cost)
      ensures Now() == goal
    {
      ghost var before := marks;
      ghost var h := VisitUnselected(w, ds, c.m, Now(), cur, cost, goal);
      succeed := FindPartner(cur, cost, h);
      if succeed {
        AfterMarking(c, ds, w, before, marks, zeroMap, candidates, parityMap, partialMap, cur,
                     marks[cur].matchingIndex, cost);
        MarkMatched(cur, marks[cur].matchingIndex, marks[cur].curCost, true);
      } else {
        AfterSearch(c, ds, w, before, marks, zeroMap, candidates, parityMap, partialMap, cur, cost);
        TentativeKeeps(w, before, marks, cur);
      }
    }

    /** `remaining_stripes` lists every unselected stripe, in index order; it may also list selected ones. */
    ghost predicate RemainingOk()
      reads this`remaining
    {
      InOrderBelow(remaining, |ds|)
    }

    /** The body of the main loop: says whether the stripe leaves `remaining_stripes`. */
    method VisitStripe(t: nat, cost: nat, ghost goal: Progress) returns (toDel: bool)
      requires Searching() && cost < c.m && RemainingOk() && t < |remaining|
      requires InRound(w, marks, remaining, t, cost)
      requires remaining[t] < |ds| && goal == Visited(w, ds, c.m, Now(), remaining[t], cost)
      modifies `costTable, `marks, `parityMap, `partialMap, `zeroMap, `candidates
      ensures Searching() && InRound(w, marks, remaining, t + 1, cost)
      ensures Unselected(marks) <= Unselected(old(marks))
      ensures toDel ==> remaining[t] !in Unselected(marks)
      ensures !toDel ==> remaining[t] in Unselected(old(marks))
      ensures Now() == goal
    {
      var cur := remaining[t];
      ghost var before := marks;
      if marks[cur].selected {
        toDel := true;
      } else {
        InRoundHead(w, marks, remaining, t, cost);
        toDel := ProcessStripe(cur, cost, goal);
      }
      RoundStep(w, before, marks, remaining, t, cost);
    }

    /** One turn of the main loop: the stripe is visited, and queued for removal if it is matched. */
    method VisitNext(t: nat, cost: nat, ghost first: seq<Mark>, itToDel: seq<nat>, ghost goal: Progress)
      returns (itToDel': seq<nat>)
      requires Searching() && cost < c.m && RemainingOk() && t < |remaining|
      requires InRound(w, marks, remaining, t, cost) && Swept(first, marks, remaining, t, itToDel)
      requires InPlainRound(w, ds, c.m, Now(), remaining, t, cost, goal)
      modifies `costTable, `marks, `parityMap, `partialMap, `zeroMap, `candidates
      ensures Searching() && InRound(w, marks, remaining, t + 1, cost)
      ensures Swept(first, marks, remaining, t + 1, itToDel')
      ensures InPlainRound(w, ds, c.m, Now(), remaining, t + 1, cost, goal)
    {
      ghost var next := RoundStepOver(w, ds, c.m, Now(), remaining, t, cost, goal);
      ghost var before := marks;
      var toDel := VisitStripe(t, cost, next);
      SweepStep(first, before, marks, remaining, t, itToDel, toDel);
      itToDel' := if toDel then itToDel + [remaining[t]] else itToDel;
    }

    /** The main loop for one cost. */
    method VisitAll(cost: nat, ghost goal: Progress) returns (itToDel: seq<nat>)
      requires Searching() && cost < c.m && RemainingOk() && InRound(w, marks, remaining, 0, cost)
      requires InPlainRound(w, ds, c.m, Now(), remaining, 0, cost, goal)
      modifies `costTable, `marks, `parityMap, `partialMap, `zeroMap, `candidates
      ensures Searching() && InRound(w, marks, remaining, |remaining|, cost)
      ensures Swept(old(marks), marks, remaining, |remaining|, itToDel)
      ensures InPlainRound(w, ds, c.m, Now(), remaining, |remaining|, cost, goal)
    {
      itToDel := [];
      var t := 0;
      ghost var first := marks;
      while t < |remaining|
        invariant t <= |remaining|
        invariant Searching() && InRound(w, marks, remaining, t, cost) && Swept(first, marks, remaining, t, itToDel)
        invariant InPlainRound(w, ds, c.m, Now(), remaining, t, cost, goal)
      {
        itToDel := VisitNext(t, cost, first, itToDel, goal);
        t := t + 1;
      }
    }

    /** One round of the main loop: stripes that can be matched at this cost are, exactly as by plain scans
        over all stripes.  Every stripe that was selected before the round leaves `remaining`, no unselected one
        does, and the order stays. */
    method Round(cost: nat, ghost goal: Progress) returns (ghost gone: set<nat>)
      requires Searching() && cost < c.m && RemainingOk() && InRound(w, marks, remaining, 0, cost)
      requires InPlainRound(w, ds, c.m, Now(), remaining, 0, cost, goal)
      modifies `costTable, `marks, `parityMap, `partialMap, `zeroMap, `candidates, `remaining
      ensures Searching() && RemainingOk() && InRound(w, marks, remaining, 0, cost + 1)
      ensures remaining == Without(old(remaining), gone) && gone !! Unselected(marks)
      ensures SetOf(old(remaining)) <= gone + Unselected(old(marks))
      ensures Now() == goal
    {
      ghost var first := marks;
      var itToDel := VisitAll(cost, goal);
      gone := SetOf(itToDel);
      EndPlainRound(w, ds, c.m, Now(), remaining, cost, goal);
      SweepDone(w, first, marks, remaining, itToDel, cost);
      remaining := EraseAll(remaining, itToDel);
    }

    // -----------------------------------------------------------------------------------------
    // Building the index
    // -----------------------------------------------------------------------------------------

    /** The inner loop of `build_map`: the stripe's keys for all non-empty masks. */
    method IndexMasks(index: nat)
      requires index < |ds| && PartialMapOk(ds, partialMap) && OnlyBelow(partialMap, index)
      requires PartialListed(c.m, ds, partialMap, Everyone(index))
      modifies `partialMap
      ensures PartialMapOk(ds, partialMap) && OnlyBelow(partialMap, index + 1)
      ensures PartialListed(c.m, ds, partialMap, Everyone(index + 1))
    {
      var upside := Pow2(c.m);
      for s := 1 to upside
        invariant PartialMapOk(ds, partialMap) && PartlyListed(ds, partialMap, index, s)
        invariant PartialListed(c.m, ds, partialMap, Everyone(index))
      {
        var key := MakeKey(ds[index].parity, s);
        AppendPartial(c.m, ds, partialMap, index, s);
        partialMap := Append(partialMap, key, index);
      }
      StripeListed(c.m, ds, partialMap, index);
    }

    /** `build_map`: afterwards the index lists every stripe, exactly once under each of its keys. */
    method BuildMap()
      requires parityMap == map[] && partialMap == map[] && remaining == []
      modifies `parityMap, `partialMap, `remaining
      ensures IndexOk(c.m, ds, parityMap, partialMap, Everyone(|ds|))
      ensures |remaining| == |ds| && forall i :: 0 <= i < |ds| ==> remaining[i] == i
    {
      for index := 0 to |ds|
        invariant ParityMapOk(ds, parityMap) && OnlyBelow(parityMap, index)
        invariant PartialMapOk(ds, partialMap) && OnlyBelow(partialMap, index)
        invariant ParityListed(ds, parityMap, Everyone(index))
        invariant PartialListed(c.m, ds, partialMap, Everyone(index))
        invariant |remaining| == index && forall i :: 0 <= i < index ==> remaining[i] == i
      {
        AppendParity(ds, parityMap, index);
        parityMap := Append(parityMap, ds[index].parity, index);
        remaining := remaining + [index];
        IndexMasks(index);
      }
    }

    // -----------------------------------------------------------------------------------------
    // StripeMerge-G
    // -----------------------------------------------------------------------------------------

    /** The inner loop of the level-building part of `basic_greedy`. */
    method LevelRow(i: nat, remainFlag: bool, levels: seq<Pairs>) returns (r: seq<Pairs>)
      requires Ready() && i < |ds| && !marks[i].selected
      requires !remainFlag ==> forall p :: 0 <= p < |marks| ==> !marks[p].selected
      requires |levels| == c.k + c.m + 1 && LevelsOk(w, Unselected(marks), levels, i, i + 1)
      requires LevelsSorted(levels, i, i + 1)
      modifies `costTable
      ensures Ready()
      ensures |r| == |levels| && LevelsOk(w, Unselected(marks), r, i + 1, 0) && LevelsSorted(r, i + 1, 0)
    {
      r := levels;
      for j := i + 1 to |ds|
        invariant Ready() && |r| == |levels|
        invariant LevelsOk(w, Unselected(marks), r, i, j) && LevelsSorted(r, i, j)
      {
        if remainFlag && marks[j].selected {
          SortedLater(r, i, j, i, j + 1);
          continue;
        }
        var cost := GetCost(i, j);
        PushKeepsLevels(w, Unselected(marks), r, i, j);
        PushKeepsSorted(r, cost, i, j);
        r := r[cost := r[cost] + [(i, j)]];
      }
      SortedLater(r, i, |ds|, i + 1, 0);
    }

    /** The level-building part of `basic_greedy`: all pairs, or all pairs of unselected stripes, each level
        in index order. */
    method BuildLevels(remainFlag: bool) returns (levels: seq<Pairs>)
      requires Ready()
      requires !remainFlag ==> forall p :: 0 <= p < |marks| ==> !marks[p].selected
      modifies `costTable
      ensures Ready() && |levels| == c.k + c.m + 1
      ensures LevelsOk(w, Unselected(marks), levels, |w|, 0) && LevelsSorted(levels, |w|, 0)
    {
      levels := seq(c.k + c.m + 1, _ => []);
      for i := 0 to |ds|
        invariant Ready() && |levels| == c.k + c.m + 1
        invariant LevelsOk(w, Unselected(marks), levels, i, 0) && LevelsSorted(levels, i, 0)
      {
        SortedLater(levels, i, 0, i, i + 1);
        SortedLater(levels, i, 0, i + 1, 0);
        if remainFlag && marks[i].selected {
          continue;
        }
        levels := LevelRow(i, remainFlag, levels);
      }
    }

    /** The selection of a pair whose stripes are both still there. */
    method Select(level: Pairs, t: nat, cost: nat, i: nat, j: nat, ghost first: seq<Mark>, flag: seq<bool>, num: nat,
                  counts: seq<nat>)
      returns (flag': seq<bool>, num': nat, counts': seq<nat>)
      requires Ready() && t < |level| && cost < |counts| && level[t] == (i, j)
      requires Selecting(w, ds, State(marks, zeroMap), candidates, first, flag, num, level, cost, t)
      requires i < |flag| && j < |flag| && !flag[i] && !flag[j]
      modifies `marks, `zeroMap, `candidates
      ensures Ready() && zeroMap == old(zeroMap) && candidates == old(candidates)
      ensures Selecting(w, ds, State(marks, zeroMap), candidates, first, flag', num', level, cost, t + 1)
      ensures counts' == counts[cost := counts[cost] + 1] && TotalCost(marks) == TotalCost(old(marks)) + cost
    {
      TakePair(w, ds, State(marks, zeroMap), candidates, first, flag, num, level, cost, t, i, j);
      counts' := counts[cost := counts[cost] + 1];
      flag' := flag[i := true][j := true];
      MarkMatched(i, j, cost, false);
      num' := num - 1;
    }

    /** One turn of the selection loop: the pair is selected if both its stripes are still there. */
    method SelectPair(level: Pairs, t: nat, cost: nat, ghost first: seq<Mark>, flag: seq<bool>, num: nat, counts: seq<nat>)
      returns (flag': seq<bool>, num': nat, counts': seq<nat>)
      requires Ready() && t < |level| && cost < |counts|
      requires Selecting(w, ds, State(marks, zeroMap), candidates, first, flag, num, level, cost, t)
      modifies `marks, `zeroMap, `candidates
      ensures Ready() && zeroMap == old(zeroMap) && candidates == old(candidates)
      ensures Selecting(w, ds, State(marks, zeroMap), candidates, first, flag', num', level, cost, t + 1)
      ensures |counts'| == |counts|
      ensures TotalCost(marks) + WeightedSum(counts) == TotalCost(old(marks)) + WeightedSum(counts')
    {
      var (i, j) := level[t];
      flag', num', counts' := flag, num, counts;
      PairOfLevel(w, ds, State(marks, zeroMap), candidates, first, flag, num, level, cost, t);
      if !flag[i] && !flag[j] {
        WeightedBump(counts, cost);
        flag', num', counts' := Select(level, t, cost, i, j, first, flag, num, counts);
      } else {
        SkipPair(w, ds, State(marks, zeroMap), candidates, first, flag, num, level, cost, t, i, j);
      }
    }

    /** The selection of pairs from one level, until none is left to select. */
    method SelectLevel(levels: seq<Pairs>, cost: nat, ghost first: seq<Mark>, flag: seq<bool>, num: nat, counts: seq<nat>)
      returns (flag': seq<bool>, num': nat, counts': seq<nat>)
      requires Ready() && cost < |levels| == |counts| && num > 0
      requires LevelsOk(w, Unselected(first), levels, |w|, 0) && LevelsSorted(levels, |w|, 0)
      requires BetweenLevels(w, ds, State(marks, zeroMap), candidates, first, flag, num, cost)
      modifies `marks, `zeroMap, `candidates
      ensures Ready() && zeroMap == old(zeroMap) && candidates == old(candidates)
      ensures BetweenLevels(w, ds, State(marks, zeroMap), candidates, first, flag', num', cost + 1)
      ensures |counts'| == |counts|
      ensures TotalCost(marks) + WeightedSum(counts) == TotalCost(old(marks)) + WeightedSum(counts')
    {
      flag', num', counts' := flag, num, counts;
      var level := levels[cost];
      EnterLevel(w, ds, State(marks, zeroMap), candidates, first, flag, num, levels, cost);
      var t := 0;
      while t < |level| && num' > 0
        invariant t <= |level| && |counts'| == |counts|
        invariant Ready() && zeroMap == old(zeroMap) && candidates == old(candidates)
        invariant Selecting(w, ds, State(marks, zeroMap), candidates, first, flag', num', level, cost, t)
        invariant TotalCost(marks) + WeightedSum(counts) == TotalCost(old(marks)) + WeightedSum(counts')
      {
        flag', num', counts' := SelectPair(level, t, cost, first, flag', num', counts');
        t := t + 1;
      }
      LeaveLevel(w, ds, State(marks, zeroMap), candidates, first, flag', num', levels, cost, t);
    }

    /** `basic_greedy`: the greedy matching of the unmatched stripes in the order of cost, smaller and larger
        index.  Afterwards all stripes but one of an odd number are matched, the costs are true, and no two
        stripes would both be better off with each other.  `remaining` may list stripes that are already
        selected; those keep their partners. */
    method BasicGreedy(remainFlag: bool) returns (r: Outcome)
      requires Ready() && Inv(w, ds, State(marks, zeroMap), candidates) && Guarded(w, marks)
      requires if remainFlag then Unselected(marks) <= SetOf(remaining)
               else forall p :: 0 <= p < |marks| ==> !marks[p].selected
      modifies `costTable, `marks, `zeroMap, `candidates
      ensures r.BadInput? <==> c.nodeNum < 2 * c.k + c.m
      ensures r.BadInput? ==> marks == old(marks)
      ensures zeroMap == old(zeroMap) && candidates == old(candidates)
      ensures r.Total? ==> Ready() && Inv(w, ds, State(marks, zeroMap), candidates)
      ensures r.Total? ==> Stable(w, marks)
      ensures r.Total? ==> Extends(old(marks), marks) && IndexGreedy(w, marks, Unselected(old(marks)))
      ensures r.Total? ==> r.cost == if remainFlag then 0 else TotalCost(marks)
    {
      if c.nodeNum < 2 * c.k + c.m {
        return BadInput;
      }
      var levels := BuildLevels(remainFlag);
      var num: nat := if remainFlag then |remaining| / 2 else |ds| / 2;
      var flag := NoFlags(|ds|);
      var counts := NoCounts(c.k + c.m + 1);
      ghost var first := marks;
      EnoughToSelect(marks, remaining, remainFlag);
      StartLevels(w, ds, State(marks, zeroMap), candidates, flag, num);
      var cost := 0;
      while cost <= c.k + c.m && num > 0
        invariant cost <= c.k + c.m + 1 && |counts| == c.k + c.m + 1
        invariant Ready() && zeroMap == old(zeroMap) && candidates == old(candidates)
        invariant BetweenLevels(w, ds, State(marks, zeroMap), candidates, first, flag, num, cost)
        invariant TotalCost(marks) == TotalCost(old(marks)) + WeightedSum(counts)
      {
        flag, num, counts := SelectLevel(levels, cost, first, flag, num, counts);
        cost := cost + 1;
      }
      if num > 0 {
        GreedyEnds(w, ds, State(marks, zeroMap), candidates, first, flag, num, c.k + c.m);
      } else {
        GreedyEndsEarly(w, ds, State(marks, zeroMap), candidates, first, flag, cost);
      }
      if remainFlag {
        return Total(0);
      }
      NothingSelected(old(marks));
      var total := AddUp(counts);
      return Total(total);
    }

    // -----------------------------------------------------------------------------------------
    // StripeMerge-P
    // -----------------------------------------------------------------------------------------

    ghost function OptState(): State
      reads this`marks, this`zeroMap
    {
      State(marks, zeroMap)
    }

    /** The two `mark_matched` calls of a swap; see `Rewire`. */
    method SwapPairs(a: nat, i: nat)
      requires |marks| == |ds| && a < |ds| && i < |ds|
      requires marks[a].matchingIndex < |ds| && marks[i].matchingIndex < |ds|
      modifies `marks, `zeroMap, `candidates
      ensures OptState() == Rewire(ds, old(OptState()), a, i) && candidates == old(candidates)
    {
      var c, j := marks[a].matchingIndex, marks[i].matchingIndex;
      MarkMatched(a, j, 0, true);
      MarkMatched(c, i, 0, false);
    }

    /** Are both pairs free? */
    method BothFree(p: nat, q: nat, r: nat, s: nat) returns (free: bool)
      requires Ready() && p < |ds| && q < |ds| && r < |ds| && s < |ds| && p != q && r != s
      modifies `costTable
      ensures Ready() && (free <==> w[p][q] == 0 && w[r][s] == 0)
    {
      var cost := GetCost(p, q);
      if cost != 0 {
        return false;
      }
      cost := GetCost(r, s);
      return cost == 0;
    }

    /** The body of the inner loop of `make_optimization`: tries one zero pair. */
    method TrySwap(curI: nat, i: nat) returns (done: bool)
      requires Ready() && curI < |ds| && i < |ds|
      requires marks[curI].matchingIndex < |ds| && marks[i].matchingIndex < |ds|
      requires marks[marks[curI].matchingIndex].matchingIndex < |ds|
      requires curI != i && marks[curI].matchingIndex != i
      requires curI != marks[i].matchingIndex && marks[curI].matchingIndex != marks[i].matchingIndex
      modifies `costTable, `marks, `zeroMap, `candidates
      ensures Ready() && candidates == old(candidates)
      ensures done <==> TryOne(w, old(marks), curI, i) != NoSwap
      ensures OptState() == ApplySwap(ds, old(OptState()), curI, TryOne(w, old(marks), curI, i))
    {
      var curJ, j := marks[curI].matchingIndex, marks[i].matchingIndex;
      done := BothFree(curI, i, curJ, j);
      if done {
        SwapPairs(curJ, i);
      } else {
        done := BothFree(curI, j, curJ, i);
        if done {
          SwapPairs(curI, i);
        }
      }
    }

    /** The inner loop of `make_optimization`: the first zero pair that allows a swap gets it. */
    method TryList(curI: nat, list: seq<nat>)
      requires Ready() && ScanReady(marks, curI, list)
      modifies `costTable, `marks, `zeroMap, `candidates
      ensures Ready() && candidates == old(candidates)
      ensures OptState() == ApplySwap(ds, old(OptState()), curI, FindSwap(w, old(marks), curI, list))
    {
      ghost var swap := FindSwap(w, marks, curI, list);
      var t := 0;
      while t < |list|
        invariant t <= |list| && Ready() && OptState() == old(OptState()) && candidates == old(candidates)
        invariant ScanReady(marks, curI, list[t..]) && swap == FindSwap(w, marks, curI, list[t..])
      {
        FindSwapStep(w, marks, curI, list, t);
        var done := TrySwap(curI, list[t]);
        if done {
          return;
        }
        t := t + 1;
      }
    }

    /** The body of the outer loop of `make_optimization`. */
    method OptimizeCandidate(curI: nat)
      requires Ready() && Inv(w, ds, OptState(), [curI])
      modifies `costTable, `marks, `zeroMap, `candidates
      ensures Ready() && candidates == old(candidates)
      ensures OptState() == OptimizeOne(w, ds, old(OptState()), curI)
    {
      CandidateHead(w, ds, OptState(), curI);
      var pd := ds[curI].parity;
      if pd in zeroMap {
        ListIsReady(w, ds, OptState(), pd, [curI]);
        ListIsScanReady(w, ds, OptState(), curI, zeroMap[pd]);
        FindSwapInList(w, marks, curI, zeroMap[pd]);
        TryList(curI, zeroMap[pd]);
      }
    }

    /** `make_optimization`. */
    method MakeOptimization()
      requires Ready() && Inv(w, ds, OptState(), candidates)
      modifies `costTable, `marks, `zeroMap, `candidates
      ensures Ready() && candidates == old(candidates) && Paired(w, marks) && NoWorse(old(marks), marks)
      ensures OptState() == OptimizeAll(w, ds, old(OptState()), old(candidates))
      ensures TotalCost(marks)
           == TotalCost(old(marks)) - CostOf(old(marks), Swapped(w, ds, old(OptState()), old(candidates)))
    {
      OptimizeAllKeeps(w, ds, OptState(), candidates);
      var cands := candidates;
      ghost var goal := OptimizeAll(w, ds, OptState(), cands);
      assert cands[0..] == cands;
      var t := 0;
      while t < |cands|
        invariant t <= |cands| && Ready() && Inv(w, ds, OptState(), cands[t..])
        invariant candidates == cands
        invariant goal == OptimizeAll(w, ds, OptState(), cands[t..])
      {
        OptimizeStep(w, ds, OptState(), cands, t);
        OptimizeCandidate(cands[t]);
        t := t + 1;
      }
    }

    /** One turn of the main loop of `dist_based_search`. */
    method RunRound(cost: nat, ghost goal: Progress)
      requires Searching() && BetweenRounds(w, ds, c.m, Now(), remaining, cost, goal) && cost < c.m
      modifies `costTable, `marks, `parityMap, `partialMap, `zeroMap, `candidates, `remaining
      ensures Searching() && BetweenRounds(w, ds, c.m, Now(), remaining, cost + 1, goal)
    {
      ghost var next := NextRound(w, ds, c.m, Now(), remaining, cost, goal);
      ghost var gone := Round(cost, next);
    }

    /** The main loop of `dist_based_search`. */
    method RoundLoop(ghost goal: Progress) returns (ghost cost': nat)
      requires Searching() && BetweenRounds(w, ds, c.m, Now(), remaining, 0, goal)
      modifies `costTable, `marks, `parityMap, `partialMap, `zeroMap, `candidates, `remaining
      ensures Searching() && BetweenRounds(w, ds, c.m, Now(), remaining, cost', goal)
      ensures cost' < c.m ==> remaining == []
    {
      var cost := 0;
      while cost < c.m && remaining != []
        invariant cost <= c.m
        invariant Searching()
        invariant BetweenRounds(w, ds, c.m, Now(), remaining, cost, goal)
        decreases c.m - cost
      {
        RunRound(cost, goal);
        cost := cost + 1;
      }
      cost' := cost;
    }

    /** All rounds: no two stripes that are left cost less than `m`. */
    method RunRounds(ghost goal: Progress)
      requires Searching() && BetweenRounds(w, ds, c.m, Now(), remaining, 0, goal)
      modifies `costTable, `marks, `parityMap, `partialMap, `zeroMap, `candidates, `remaining
      ensures Searching() && RemainingOk() && Unselected(marks) <= SetOf(remaining)
      ensures Floor(w, marks, c.m) && Now() == goal
    {
      ghost var cost := RoundLoop(goal);
      RoundsOver(w, ds, c.m, Now(), remaining, cost, goal);
    }

    /** `dist_based_search` on a fresh generator: the indexed search ends with the guarantee of the
        exhaustive greedy, pairs with true costs in which no two stripes would both be better off with each
        other.  The optimiser turns the matching that was found (`matched`) into the final one: nobody pays
        more, the candidates that swap pay nothing, and no pair of the search could still be freed by a
        swap. */
    method DistBasedSearch() returns (ok: bool, ghost matched: State)
      requires Ready() && Untouched()
      modifies `costTable, `marks, `parityMap, `partialMap, `zeroMap, `candidates, `remaining
      ensures ok <==> c.nodeNum >= 2 * c.k + c.m
      ensures ok ==> Ready() && Stable(w, marks)
      ensures ok ==> Inv(w, ds, matched, candidates) && Stable(w, matched.marks) && NoWorse(matched.marks, marks)
      ensures ok ==> OptState() == OptimizeAll(w, ds, matched, candidates)
      ensures ok ==> var plain := Rounds(w, ds, c.m, Progress(old(marks), map[], []), 0);
                && matched.zeroMap == plain.zeroMap && candidates == plain.cands
                && Extends(plain.marks, matched.marks) && IndexGreedy(w, matched.marks, Unselected(plain.marks))
      ensures ok ==> SwapsDone(w, ds, marks, c.m)
      ensures ok ==> TotalCost(marks) == TotalCost(matched.marks) - CostOf(matched.marks, Swapped(w, ds, matched, candidates))
    {
      matched := OptState();
      if c.nodeNum < 2 * c.k + c.m {
        return false, matched;
      }
      FreshInv(c, ds, w, marks);
      BuildMap();
      StartRound(w, marks, remaining);
      ghost var plain := Rounds(w, ds, c.m, Now(), 0);
      RunRounds(plain);
      ghost var found := marks;
      if remaining != [] {
        var r := BasicGreedy(true);
      } else {
        GuardedIsStable(w, marks);
      }
      RestKeepsRecorded(w, ds, found, marks, zeroMap, candidates, c.m);
      matched := OptState();
      OptimizerFinishes(w, ds, matched, candidates, c.m);
      MakeOptimization();
      NoWorseKeepsStable(w, matched.marks, marks);
      ok := true;
    }

    // -----------------------------------------------------------------------------------------
    // Reporting
    // -----------------------------------------------------------------------------------------

    /** The visiting test of `print_statics` and `get_sending_scheme`. */
    method Visit(i: nat, flag: seq<bool>) returns (first: bool, flag': seq<bool>)
      requires Ready() && Perfect(w, marks) && i < |marks| && Flagged(marks, flag, i)
      ensures first <==> i < marks[i].matchingIndex
      ensures Flagged(marks, flag', i + 1)
    {
      VisitPair(w, marks, flag, i);
      first := !flag[i] && !flag[marks[i].matchingIndex];
      flag' := flag;
      if first {
        flag' := flag[marks[i].matchingIndex := true][i := true];
      }
    }

    /** Counts the pair by its cost when it is visited. */
    method CountPair(i: nat, flag: seq<bool>, count: seq<nat>) returns (flag': seq<bool>, count': seq<nat>)
      requires Ready() && Perfect(w, marks) && i < |marks| && |count| == c.k + c.m + 1
      requires Counted(marks, flag, count, i)
      ensures |count'| == |count| && Counted(marks, flag', count', i + 1)
    {
      PerfectInRange(w, marks, c.k + c.m);
      SumBelowNext(marks, i);
      var first;
      first, flag' := Visit(i, flag);
      count' := count;
      if first {
        var cost := marks[i].curCost;
        WeightedBump(count, cost);
        count' := count[cost := count[cost] + 1];
      }
    }

    /** `print_statics`: the total cost, added up from the number of pairs of each cost. */
    method PrintStatics() returns (total: nat)
      requires Ready() && Perfect(w, marks)
      ensures total == TotalCost(marks)
    {
      var flag, count := NoFlags(|marks|), NoCounts(c.k + c.m + 1);
      NothingCounted(w, marks, flag, count);
      for i := 0 to |marks|
        invariant |count| == c.k + c.m + 1 && Counted(marks, flag, count, i)
      {
        flag, count := CountPair(i, flag, count);
      }
      AllCounted(w, marks, flag, count);
      total := AddUp(count);
    }

    /** The plan of one visited pair; a free pair is skipped. */
    method PlanPair(i: nat, first: bool) returns (plan: seq<Transfer>)
      requires Ready() && i < |marks| && marks[i].matchingIndex < |marks| && c.nodeNum >= 2 * c.k + c.m
      requires first <==> i < marks[i].matchingIndex
      requires marks[i].curCost == w[i][marks[i].matchingIndex]
      ensures Planned(c, ds, marks, i, plan)
    {
      plan := [];
      if first {
        var j := marks[i].matchingIndex;
        assert WellPlaced(c, ds[i]) && WellPlaced(c, ds[j]) && w[i][j] == PairCost(c, ds, i, j);
        if marks[i].curCost != 0 {
          plan := GetOneScheme(c, ds[i], ds[j]);
        } else {
          FreePairPlan(c, ds[i], ds[j]);
        }
      }
    }

    /** `get_sending_scheme`: the plans of all pairs, smaller index first; computed once. */
    method GetSendingScheme() returns (r: seq<Transfer>, ghost plans: seq<Plan>)
      requires Ready() && Perfect(w, marks) && c.nodeNum >= 2 * c.k + c.m
      modifies `blocksToSent
      ensures r == blocksToSent
      ensures old(blocksToSent) != [] ==> r == old(blocksToSent)
      ensures old(blocksToSent) == [] ==> |plans| == |ds| && AllPlanned(c, ds, marks, plans) && r == Flatten(plans)
      ensures old(blocksToSent) == [] ==> |r| == TotalCost(marks)
    {
      plans := [];
      if blocksToSent == [] {
        var flag := NoFlags(|marks|);
        PerfectInRange(w, marks, c.k + c.m);
        for i := 0 to |marks|
          invariant Flagged(marks, flag, i)
          invariant |plans| == i && AllPlanned(c, ds, marks, plans) && blocksToSent == Flatten(plans)
        {
          var first, more;
          first, flag := Visit(i, flag);
          more := PlanPair(i, first);
          FlattenPush(plans, more);
          PlannedPush(c, ds, marks, plans, more);
          blocksToSent := blocksToSent + more;
          plans := plans + [more];
        }
        SchemeSize(c, ds, w, marks, plans);
        SumBelowAll(w, marks);
      }
      r := blocksToSent;
    }

    /** The report of a finished matching: the printed total is the size of the plan. */
    method Report() returns (printed: nat, plan: seq<Transfer>)
      requires Ready() && Perfect(w, marks) && c.nodeNum >= 2 * c.k + c.m && blocksToSent == []
      modifies `blocksToSent
      ensures printed == |plan| == TotalCost(marks)
    {
      printed := PrintStatics();
      ghost var plans;
      plan, plans := GetSendingScheme();
    }

    /** The matching is finished. */
    ghost predicate Finished()
      reads this`marks
    {
      Problem() && Sized(w, marks) && Stable(w, marks)
    }

    /** A finished matching saves at least half of what any other matching saves ... */
    lemma FinishedSavesHalf(n: nat, other: seq<nat>)
      requires Finished() && n == c.k + c.m && |other| == |w| && IsMatching(other)
      ensures Priced(w, SavingOf(n)) && IsMatching(Mates(marks))
      ensures TotalGain(w, SavingOf(n), other) <= 2 * TotalGain(w, SavingOf(n), Mates(marks))
    {
      HalfOptimalSaving(w, marks, n, other);
    }

    /** ... and at every cost level it has at least half as many pairs up to that level. */
    lemma FinishedHasHalfTheLevel(n: nat, level: nat, other: seq<nat>)
      requires Finished() && n == c.k + c.m && |other| == |w| && IsMatching(other)
      ensures Priced(w, CountUpTo(n, level)) && IsMatching(Mates(marks))
      ensures TotalGain(w, CountUpTo(n, level), other) <= 2 * TotalGain(w, CountUpTo(n, level), Mates(marks))
    {
      HalfOptimalLevels(w, marks, n, level, other);
    }
  }

  /** StripeMerge-G from end to end (src/matching_main.cc): the greedy's total, the printed total and
      the size of the plan are one number.  The report indexes by every stripe's partner, so it needs an even
      number of stripes. */
  method StripeMergeG(c: Params, ds: seq<Dist>) returns (g: MatchingGenerator, total: nat, printed: nat, plan: seq<Transfer>)
    requires 1 <= c.m <= 7 && c.k + c.m <= 254 && AllPlaced(c, ds)
    requires c.nodeNum >= 2 * c.k + c.m && |ds| % 2 == 0
    ensures g.c == c && g.ds == ds && g.Finished() && Perfect(g.w, g.marks)
    ensures IndexGreedy(g.w, g.marks, Everyone(|ds|))
    ensures total == printed == |plan| == TotalCost(g.marks)
  {
    g := new MatchingGenerator(c, ds);
    FreshInv(c, ds, g.w, g.marks);
    var r := g.BasicGreedy(false);
    total := r.cost;
    EvenIsPerfect(g.w, g.marks);
    printed, plan := g.Report();
  }

  /** The marks before anything is matched. */
  function Unmarked(n: nat): seq<Mark> {
    seq(n, _ => Mark(NO_INDEX, NO_COST, false))
  }

  /** StripeMerge-P from end to end: what the plain search finds, its rest matched in index order, and then
      optimised. */
  method StripeMergeP(c: Params, ds: seq<Dist>)
    returns (g: MatchingGenerator, printed: nat, plan: seq<Transfer>, ghost matched: State)
    requires 1 <= c.m <= 7 && c.k + c.m <= 254 && AllPlaced(c, ds)
    requires c.nodeNum >= 2 * c.k + c.m && |ds| % 2 == 0
    ensures g.c == c && g.ds == ds && g.Finished() && Perfect(g.w, g.marks)
    ensures var plain := Rounds(g.w, ds, c.m, Progress(Unmarked(|ds|), map[], []), 0);
            && Extends(plain.marks, matched.marks) && IndexGreedy(g.w, matched.marks, Unselected(plain.marks))
            && matched.zeroMap == plain.zeroMap && Inv(g.w, ds, matched, plain.cands)
            && State(g.marks, g.zeroMap) == OptimizeAll(g.w, ds, matched, plain.cands)
    ensures SwapsDone(g.w, ds, g.marks, c.m)
    ensures printed == |plan| == TotalCost(g.marks)
  {
    g := new MatchingGenerator(c, ds);
    assert g.marks == Unmarked(|ds|);
    var ok;
    ok, matched := g.DistBasedSearch();
    EvenIsPerfect(g.w, g.marks);
    printed, plan := g.Report();
  }
}
