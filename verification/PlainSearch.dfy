/**
 The indexed search without its index: what `dist_based_search` looks for, said with plain scans over all
 stripes in index order (src/matching_generator.cc, lines 187-311).  There are no lists to clean up, no masks to
 enumerate by bit tricks, and no list of remaining stripes.
 */
module PlainSearch {
  import opened BitTricks
  import opened Stripes
  import opened Keys
  import opened Matchings
  import opened SearchIndex
  import opened Optimizer
  import opened SearchSteps

  // -------------------------------------------------------------------------------------------
  // Scanning stripes
  // -------------------------------------------------------------------------------------------

  /** The cheapest partner so far. */
  datatype Choice = Choice(cost: nat, index: nat)

  /** The outcome of a search: the marks with a new tentative candidate, and whether it has the target cost. */
  datatype Hunt = Hunt(marks: seq<Mark>, found: bool)

  ghost function Better(w: Costs, ms: seq<Mark>, p: nat, x: nat, best: Choice): Choice
    requires Sized(w, ms) && p < |ms|
  {
    if x < |ms| && x != p && !ms[x].selected && w[p][x] < best.cost then Choice(w[p][x], x) else best
  }

  /** Goes through `list` for cheaper and cheaper unselected partners of `p`, until one has the target cost. */
  ghost function BestOf(w: Costs, ms: seq<Mark>, p: nat, list: seq<nat>, target: nat, best: Choice): Choice
    requires Sized(w, ms) && p < |ms|
    decreases |list|
  {
    if list == [] || best.cost == target then best
    else BestOf(w, ms, p, list[1..], target, Better(w, ms, p, list[0], best))
  }

  ghost function SearchList(w: Costs, ms: seq<Mark>, p: nat, list: seq<nat>, target: nat): (h: Hunt)
    requires Sized(w, ms) && p < |ms|
    ensures |h.marks| == |ms|
  {
    var best := BestOf(w, ms, p, list, target, Choice(ms[p].curCost, NO_INDEX));
    Hunt(if best.cost < ms[p].curCost then ms[p := Mark(best.index, best.cost, false)] else ms, best.cost == target)
  }

  /** The stripes below `n` with this parity placement. */
  function ParityStripes(ds: seq<Dist>, pd: seq<nat>, n: nat): seq<nat>
    requires n <= |ds|
  {
    if n == 0 then []
    else ParityStripes(ds, pd, n - 1) + if ds[n - 1].parity == pd then [n - 1] else []
  }

  /** The stripes below `n` whose parity nodes agree with `pd` on the positions of `mask`. */
  function AgreeingStripes(ds: seq<Dist>, pd: seq<nat>, mask: nat, n: nat): seq<nat>
    requires n <= |ds|
  {
    if n == 0 then []
    else
      AgreeingStripes(ds, pd, mask, n - 1)
      + if PartialKey(ds[n - 1].parity, mask) == PartialKey(pd, mask) then [n - 1] else []
  }

  // -------------------------------------------------------------------------------------------
  // All masks, one stripe, one round, all rounds
  // -------------------------------------------------------------------------------------------

  /** The masks of `m - target` positions from `z` on, in increasing order. */
  ghost function SearchFrom(w: Costs, ds: seq<Dist>, m: nat, ms: seq<Mark>, p: nat, target: nat, z: nat): (h: Hunt)
    requires Sized(w, ms) && p < |ms| == |ds| && target <= m
    ensures |h.marks| == |ms|
    decreases Pow2(m) - z
  {
    if z >= Pow2(m) then Hunt(ms, false)
    else if Pop(z) != m - target then SearchFrom(w, ds, m, ms, p, target, z + 1)
    else
      var h := SearchList(w, ms, p, AgreeingStripes(ds, ds[p].parity, z, |ds|), target);
      if h.found then h else SearchFrom(w, ds, m, h.marks, p, target, z + 1)
  }

  ghost function SearchAll(w: Costs, ds: seq<Dist>, m: nat, ms: seq<Mark>, p: nat, target: nat): (h: Hunt)
    requires Sized(w, ms) && p < |ms| == |ds| && target <= m
    ensures |h.marks| == |ms|
  {
    if target == 0 then SearchList(w, ms, p, ParityStripes(ds, ds[p].parity, |ds|), 0)
    else SearchFrom(w, ds, m, ms, p, target, 0)
  }

  /** A tentative candidate of the round's cost that is still free is taken; one that is not is dropped. */
  ghost function FindOne(w: Costs, ds: seq<Dist>, m: nat, ms: seq<Mark>, p: nat, cost: nat): (h: Hunt)
    requires Sized(w, ms) && p < |ms| == |ds| && cost <= m
    ensures |h.marks| == |ms|
  {
    var q := ms[p].matchingIndex;
    if ms[p].curCost != cost then SearchAll(w, ds, m, ms, p, cost)
    else if q < |ms| && !ms[q].selected then Hunt(ms, true)
    else SearchAll(w, ds, m, ms[p := Mark(NO_INDEX, NO_COST, false)], p, cost)
  }

  /** Marks and bookkeeping. */
  datatype Progress = Progress(marks: seq<Mark>, zeroMap: ZeroMap, cands: seq<nat>)

  ghost function Visited(w: Costs, ds: seq<Dist>, m: nat, s: Progress, p: nat, cost: nat): (s': Progress)
    requires Sized(w, s.marks) && p < |s.marks| == |ds| && cost <= m
    ensures |s'.marks| == |s.marks|
  {
    if s.marks[p].selected then s
    else
      var h := FindOne(w, ds, m, s.marks, p, cost);
      var q := h.marks[p].matchingIndex;
      if h.found && q < |ds|
      then Progress(MarkPair(h.marks, p, q, cost), NoteZero(ds, s.zeroMap, p, cost, true),
                    NoteCandidate(ds, s.cands, p, q, cost, true))
      else Progress(h.marks, s.zeroMap, s.cands)
  }

  /** One round over the stripes of `list`, in this order. */
  ghost function RoundOver(w: Costs, ds: seq<Dist>, m: nat, s: Progress, list: seq<nat>, cost: nat): (s': Progress)
    requires Sized(w, s.marks) && |s.marks| == |ds| && cost <= m && Indices(SetOf(list), |ds|)
    ensures |s'.marks| == |s.marks|
    decreases |list|
  {
    if list == [] then s
    else
      assert list[0] in SetOf(list) && SetOf(list[1..]) <= SetOf(list);
      RoundOver(w, ds, m, Visited(w, ds, m, s, list[0], cost), list[1..], cost)
  }

  /** The first `n` indices, in order. */
  function UpTo(n: nat): seq<nat> {
    if n == 0 then [] else UpTo(n - 1) + [n - 1]
  }

  lemma {:induction false} UpToIs(n: nat)
    ensures |UpTo(n)| == n && forall i :: 0 <= i < n ==> UpTo(n)[i] == i
  {
    if n > 0 {
      UpToIs(n - 1);
    }
  }

  /** The rounds from `cost` to `m - 1`, over all stripes in index order. */
  ghost function Rounds(w: Costs, ds: seq<Dist>, m: nat, s: Progress, cost: nat): (s': Progress)
    requires Sized(w, s.marks) && |s.marks| == |ds| && cost <= m
    ensures |s'.marks| == |s.marks|
    decreases m - cost
  {
    if cost == m then s
    else
      UpToIs(|ds|);
      Rounds(w, ds, m, RoundOver(w, ds, m, s, UpTo(|ds|), cost), cost + 1)
  }

  // -------------------------------------------------------------------------------------------
  // Scanning a cleaned-up list is scanning all stripes of the key
  // -------------------------------------------------------------------------------------------

  /** Stripes that are not to be matched any more make no difference to a scan. */
  lemma {:induction false} BestOfWithout(w: Costs, ms: seq<Mark>, p: nat, all: seq<nat>, gone: set<nat>, target: nat, best: Choice)
    requires Sized(w, ms) && p < |ms| && gone !! Unselected(ms)
    ensures BestOf(w, ms, p, Without(all, gone), target, best) == BestOf(w, ms, p, all, target, best)
    decreases |all|
  {
    if all != [] && best.cost != target {
      var rest := Without(all[1..], gone);
      if all[0] in gone {
        assert Without(all, gone) == rest by {
          assert [] + rest == rest;
        }
        assert all[0] !in Unselected(ms);
        BestOfWithout(w, ms, p, all[1..], gone, target, best);
      } else {
        assert Without(all, gone) == [all[0]] + rest;
        assert ([all[0]] + rest)[1..] == rest;
        BestOfWithout(w, ms, p, all[1..], gone, target, Better(w, ms, p, all[0], best));
      }
    }
  }

  lemma {:induction false} ParityStripesShape(ds: seq<Dist>, pd: seq<nat>, n: nat)
    requires n <= |ds|
    ensures Rising(ParityStripes(ds, pd, n))
    ensures forall p: nat :: p in ParityStripes(ds, pd, n) <==> (p < n && ds[p].parity == pd)
  {
    if n > 0 {
      ParityStripesShape(ds, pd, n - 1);
      AppendRising(ParityStripes(ds, pd, n - 1), n - 1);
    }
  }

  lemma {:induction false} AgreeingStripesShape(ds: seq<Dist>, pd: seq<nat>, mask: nat, n: nat)
    requires n <= |ds|
    ensures Rising(AgreeingStripes(ds, pd, mask, n))
    ensures forall p: nat :: p in AgreeingStripes(ds, pd, mask, n)
              <==> (p < n && PartialKey(ds[p].parity, mask) == PartialKey(pd, mask))
  {
    if n > 0 {
      AgreeingStripesShape(ds, pd, mask, n - 1);
      AppendRising(AgreeingStripes(ds, pd, mask, n - 1), n - 1);
    }
  }

  lemma NoMembers(list: seq<nat>)
    requires forall x :: x !in SetOf(list)
    ensures list == []
  {
    if |list| > 0 {
      HeadIn(list);
      assert false;
    }
  }

  lemma HeadIn(list: seq<nat>)
    requires |list| > 0
    ensures list[0] in SetOf(list)
  {
  }

  /** A list in index order is determined by its members. */
  lemma {:induction false} RisingUnique(a: seq<nat>, b: seq<nat>)
    requires Rising(a) && Rising(b) && SetOf(a) == SetOf(b)
    ensures a == b
    decreases |a|
  {
    if a == [] {
      NoMembers(b);
    } else {
      assert a[0] in SetOf(b);
      assert b[0] in SetOf(a);
      RisingTail(a);
      RisingTail(b);
      assert a == [a[0]] + a[1..] && b == [b[0]] + b[1..];
      assert a[0] == b[0];
      SameTails(a, b);
      RisingUnique(a[1..], b[1..]);
    }
  }

  lemma SameTails(a: seq<nat>, b: seq<nat>)
    requires a != [] && b != [] && a[0] == b[0] && SetOf(a) == SetOf(b)
    requires a[0] !in a[1..] && b[0] !in b[1..]
    ensures SetOf(a[1..]) == SetOf(b[1..])
  {
    assert forall x :: x in a <==> x == a[0] || x in a[1..];
    assert forall x :: x in b <==> x == b[0] || x in b[1..];
    forall x: nat ensures x in SetOf(a[1..]) <==> x in SetOf(b[1..]) {
      assert x in SetOf(a) <==> x in SetOf(b);
    }
  }

  /** A list in index order that has lost only stripes no longer live is the full list without them. */
  lemma ListIsWithout(list: seq<nat>, all: seq<nat>, live: set<nat>) returns (gone: set<nat>)
    requires Rising(list) && Rising(all)
    requires forall x :: x in list ==> x in all
    requires forall x :: x in all && x in live ==> x in list
    ensures gone !! live && list == Without(all, gone)
  {
    gone := SetOf(all) - SetOf(list);
    WithoutRising(all, gone);
    WithoutMembers(all, gone);
    RisingUnique(list, Without(all, gone));
  }

  /** A scan of `domain` that has come to position `t`. */
  ghost predicate Scanning(w: Costs, ms: seq<Mark>, p: nat, domain: seq<nat>, t: nat, target: nat, best: Choice,
                           queue: seq<nat>, selfSeen: bool)
    requires Sized(w, ms) && p < |ms|
  {
    && t <= |domain|
    && Best(w, ms, p, domain[..t], best.cost, best.index) && SelectedOf(ms, domain[..t], queue)
    && (selfSeen <==> p in domain[..t])
    && BestOf(w, ms, p, domain, target, Choice(ms[p].curCost, NO_INDEX)) == BestOf(w, ms, p, domain[t..], target, best)
  }

  lemma ScanStarts(w: Costs, ms: seq<Mark>, p: nat, domain: seq<nat>, target: nat)
    requires Sized(w, ms) && p < |ms|
    ensures Scanning(w, ms, p, domain, 0, target, Choice(ms[p].curCost, NO_INDEX), [], false)
  {
    assert domain[0..] == domain;
  }

  lemma ScanTurn(w: Costs, ms: seq<Mark>, p: nat, list: seq<nat>, t: nat, target: nat, best: Choice)
    requires Sized(w, ms) && p < |ms| && t < |list| && best.cost != target
    ensures BestOf(w, ms, p, list[t..], target, best)
         == BestOf(w, ms, p, list[t + 1..], target, Better(w, ms, p, list[t], best))
  {
    assert list[t..][0] == list[t] && list[t..][1..] == list[t + 1..];
  }

  lemma ScanSelected(w: Costs, ms: seq<Mark>, p: nat, domain: seq<nat>, t: nat, target: nat, best: Choice,
                     queue: seq<nat>, selfSeen: bool)
    requires Sized(w, ms) && p < |ms| && !ms[p].selected && Scanning(w, ms, p, domain, t, target, best, queue, selfSeen)
    requires t < |domain| && best.cost != target && domain[t] < |ms| && ms[domain[t]].selected
    ensures Scanning(w, ms, p, domain, t + 1, target, best, queue + [domain[t]], selfSeen)
  {
    assert domain[..t + 1] == domain[..t] + [domain[t]];
    ScanTurn(w, ms, p, domain, t, target, best);
  }

  lemma ScanSelf(w: Costs, ms: seq<Mark>, p: nat, domain: seq<nat>, t: nat, target: nat, best: Choice,
                 queue: seq<nat>, selfSeen: bool)
    requires Sized(w, ms) && p < |ms| && !ms[p].selected && Scanning(w, ms, p, domain, t, target, best, queue, selfSeen)
    requires t < |domain| && best.cost != target && domain[t] == p
    ensures Scanning(w, ms, p, domain, t + 1, target, best, queue, true)
  {
    assert domain[..t + 1] == domain[..t] + [domain[t]];
    ScanTurn(w, ms, p, domain, t, target, best);
  }

  lemma ScanPartner(w: Costs, ms: seq<Mark>, p: nat, domain: seq<nat>, t: nat, target: nat, best: Choice,
                    queue: seq<nat>, selfSeen: bool)
    requires Sized(w, ms) && p < |ms| && !ms[p].selected && Scanning(w, ms, p, domain, t, target, best, queue, selfSeen)
    requires t < |domain| && best.cost != target && domain[t] < |ms| && !ms[domain[t]].selected && domain[t] != p
    ensures Scanning(w, ms, p, domain, t + 1, target,
                     if best.cost > w[p][domain[t]] then Choice(w[p][domain[t]], domain[t]) else best, queue, selfSeen)
  {
    assert domain[..t + 1] == domain[..t] + [domain[t]];
    ScanTurn(w, ms, p, domain, t, target, best);
  }

  lemma ScanEnds(w: Costs, ms: seq<Mark>, p: nat, domain: seq<nat>, t: nat, target: nat, best: Choice,
                 queue: seq<nat>, selfSeen: bool)
    requires Sized(w, ms) && p < |ms| && Scanning(w, ms, p, domain, t, target, best, queue, selfSeen)
    requires t == |domain| || best.cost == target
    ensures best == BestOf(w, ms, p, domain, target, Choice(ms[p].curCost, NO_INDEX))
    ensures domain[..t] <= domain && (best.cost != target ==> domain[..t] == domain)
  {
  }

  /** Searching a list of the index is searching all stripes of its key. */
  lemma ListSearch(w: Costs, ms: seq<Mark>, p: nat, list: seq<nat>, all: seq<nat>, target: nat)
    requires Sized(w, ms) && p < |ms| && Rising(list) && Rising(all)
    requires forall x :: x in list ==> x in all
    requires forall x :: x in all && x in Unselected(ms) ==> x in list
    ensures SearchList(w, ms, p, list, target) == SearchList(w, ms, p, all, target)
  {
    var gone := ListIsWithout(list, all, Unselected(ms));
    BestOfWithout(w, ms, p, all, gone, target, Choice(ms[p].curCost, NO_INDEX));
  }

  /** Searching a list without another unselected stripe changes nothing. */
  lemma {:induction false} NobodyThere(w: Costs, ms: seq<Mark>, p: nat, all: seq<nat>, target: nat, best: Choice)
    requires Sized(w, ms) && p < |ms| && forall x :: x in all && x in Unselected(ms) ==> x == p
    ensures BestOf(w, ms, p, all, target, best) == best
    decreases |all|
  {
    if all != [] && best.cost != target {
      assert all[0] in all && forall x :: x in all[1..] ==> x in all;
      assert Better(w, ms, p, all[0], best) == best;
      NobodyThere(w, ms, p, all[1..], target, best);
    }
  }

  /** The stripes of a mask, from the list in the index. */
  lemma MaskListSearch(m: nat, ds: seq<Dist>, w: Costs, ms: seq<Mark>, parityMap: Lists, partialMap: Lists,
                       p: nat, mask: nat, target: nat, goal: Hunt)
    requires Sized(w, ms) && p < |ms| == |ds| && !ms[p].selected && 1 <= mask < Pow2(m)
    requires IndexOk(m, ds, parityMap, partialMap, Unselected(ms))
    requires goal == SearchList(w, ms, p, AgreeingStripes(ds, ds[p].parity, mask, |ds|), target)
    ensures var key := PartialKey(ds[p].parity, mask);
            && key in partialMap
            && SearchList(w, ms, p, partialMap[key], target) == goal
            && (|partialMap[key]| <= 1 ==> goal == Hunt(ms, ms[p].curCost == target))
  {
    var key, all := PartialKey(ds[p].parity, mask), AgreeingStripes(ds, ds[p].parity, mask, |ds|);
    assert Listed(partialMap, key, p) && PartialListOk(ds, key, partialMap[key]);
    assert key[|key| - 1] == mask;
    var list := partialMap[key];
    AgreeingStripesShape(ds, ds[p].parity, mask, |ds|);
    forall x | x in all && x in Unselected(ms) ensures x in list {
      assert Listed(partialMap, PartialKey(ds[x].parity, mask), x);
    }
    ListSearch(w, ms, p, list, all, target);
    if |list| <= 1 {
      NobodyThere(w, ms, p, all, target, Choice(ms[p].curCost, NO_INDEX));
    }
  }

  lemma ParityListSearch(m: nat, ds: seq<Dist>, w: Costs, ms: seq<Mark>, parityMap: Lists, partialMap: Lists, p: nat,
                         goal: Hunt)
    requires Sized(w, ms) && p < |ms| == |ds| && !ms[p].selected
    requires IndexOk(m, ds, parityMap, partialMap, Unselected(ms)) && goal == SearchAll(w, ds, m, ms, p, 0)
    ensures var pd := ds[p].parity;
            && pd in parityMap
            && SearchList(w, ms, p, parityMap[pd], 0) == goal
            && (|parityMap[pd]| <= 1 ==> goal == Hunt(ms, ms[p].curCost == 0))
  {
    var pd := ds[p].parity;
    var all := ParityStripes(ds, pd, |ds|);
    assert Listed(parityMap, pd, p) && ParityListOk(ds, pd, parityMap[pd]);
    var list := parityMap[pd];
    ParityStripesShape(ds, pd, |ds|);
    forall x | x in all && x in Unselected(ms) ensures x in list {
      assert Listed(parityMap, ds[x].parity, x);
    }
    ListSearch(w, ms, p, list, all, 0);
    if |list| <= 1 {
      NobodyThere(w, ms, p, all, 0, Choice(ms[p].curCost, NO_INDEX));
    }
  }

  // -------------------------------------------------------------------------------------------
  // Enumerating masks by the bit trick
  // -------------------------------------------------------------------------------------------

  /** Words that are no masks of the size are passed over. */
  lemma {:induction false} SkipMasks(w: Costs, ds: seq<Dist>, m: nat, ms: seq<Mark>, p: nat, target: nat, z: nat, next: nat)
    requires Sized(w, ms) && p < |ms| == |ds| && target <= m && z <= next
    requires forall y: nat :: z <= y < next ==> Pop(y) != m - target
    ensures SearchFrom(w, ds, m, ms, p, target, z) == SearchFrom(w, ds, m, ms, p, target, next)
    decreases next - z
  {
    if z < next {
      SkipMasks(w, ds, m, ms, p, target, z + 1, next);
      assert Pop(z) != m - target;
    }
  }

  /** The first mask of the program's loop is the first of all. */
  lemma FirstOfAll(w: Costs, ds: seq<Dist>, m: nat, ms: seq<Mark>, p: nat, target: nat, goal: Hunt)
    requires Sized(w, ms) && p < |ms| == |ds| && 1 <= target < m && goal == SearchAll(w, ds, m, ms, p, target)
    ensures Pow2(m - target) - 1 >= 1
    ensures Leads(w, ds, m, ms, p, target, Pow2(m - target) - 1, false, goal)
  {
    FirstMask(m - target);
    SkipMasks(w, ds, m, ms, p, target, 0, Pow2(m - target) - 1);
  }

  /** What is still to be done: nothing once a partner is found, else the masks from `comb` on. */
  ghost predicate Leads(w: Costs, ds: seq<Dist>, m: nat, ms: seq<Mark>, p: nat, target: nat, comb: nat, found: bool, goal: Hunt)
    requires Sized(w, ms) && p < |ms| == |ds| && target <= m
  {
    goal == if found then Hunt(ms, true) else SearchFrom(w, ds, m, ms, p, target, comb)
  }

  /** One turn of the program's loop. */
  lemma OneMask(w: Costs, ds: seq<Dist>, m: nat, ms: seq<Mark>, p: nat, target: nat, width: nat, comb: nat, goal: Hunt)
    returns (h: Hunt)
    requires Sized(w, ms) && p < |ms| == |ds| && target <= m
    requires 0 < comb < Pow2(m) && 2 * comb < Pow2(width) && Pop(comb) == m - target
    requires Leads(w, ds, m, ms, p, target, comb, false, goal)
    ensures h == SearchList(w, ms, p, AgreeingStripes(ds, ds[p].parity, comb, |ds|), target)
    ensures |h.marks| == |ms| && Leads(w, ds, m, h.marks, p, target, NextComb(width, comb), h.found, goal)
  {
    h := SearchList(w, ms, p, AgreeingStripes(ds, ds[p].parity, comb, |ds|), target);
    NextCombIsSuccessor(width, comb);
    if !h.found {
      SkipMasks(w, ds, m, h.marks, p, target, comb + 1, NextComb(width, comb));
    }
  }

  /** When the program's loop ends, no mask of the size is left. */
  lemma NoMaskLeft(w: Costs, ds: seq<Dist>, m: nat, ms: seq<Mark>, p: nat, target: nat, comb: nat, goal: Hunt)
    requires Sized(w, ms) && p < |ms| == |ds| && 1 <= target <= m && comb >= Pow2(m) - 1
    requires Leads(w, ds, m, ms, p, target, comb, false, goal)
    ensures goal == Hunt(ms, false)
  {
    OnlyFullMaskIsFull(m, Pow2(m) - 1);
    assert SearchFrom(w, ds, m, ms, p, target, Pow2(m)) == Hunt(ms, false);
  }

  /** The start of the program's mask loop. */
  lemma BeginMasks(c: Params, ds: seq<Dist>, w: Costs, ms: seq<Mark>, parityMap: Lists, partialMap: Lists,
                   index: nat, target: nat, goal: Hunt) returns (first: nat)
    requires Sized(w, ms) && |ds| == |w| && index < |w| && 1 <= target < c.m
    requires !ms[index].selected && Floor(w, ms, target) && Searched(w, ms, index, target, false)
    requires IndexOk(c.m, ds, parityMap, partialMap, Unselected(ms)) && goal == SearchAll(w, ds, c.m, ms, index, target)
    ensures first == Pow2(c.m - target) - 1
    ensures Masked(c, ds, w, ms, ms, parityMap, partialMap, index, target, first, false)
    ensures Leads(w, ds, c.m, ms, index, target, first, false, goal)
  {
    StartMasks(c, ds, w, ms, parityMap, partialMap, index, target);
    FirstOfAll(w, ds, c.m, ms, index, target, goal);
    first := Pow2(c.m - target) - 1;
  }

  /** The end of the program's mask loop. */
  lemma EndMasks(c: Params, ds: seq<Dist>, w: Costs, first: seq<Mark>, ms: seq<Mark>, parityMap: Lists, partialMap: Lists,
                 index: nat, target: nat, comb: nat, found: bool, goal: Hunt)
    requires Prices(c, ds, w) && 1 <= target < c.m
    requires Masked(c, ds, w, first, ms, parityMap, partialMap, index, target, comb, found)
    requires Leads(w, ds, c.m, ms, index, target, comb, found, goal) && (found || comb >= Pow2(c.m) - 1)
    ensures OnlyTentative(first, ms, index) && Searched(w, ms, index, target, found)
    ensures IndexOk(c.m, ds, parityMap, partialMap, LiveAfter(ms, index, found))
    ensures !found ==> AllAbove(w, Unselected(ms), index, target)
    ensures Hunt(ms, found) == goal
  {
    if !found {
      AllMasksDone(c, ds, w, Unselected(ms), index, target, comb);
      NoMaskLeft(w, ds, c.m, ms, index, target, comb, goal);
    }
  }

  /** Visiting a stripe that is still to be matched. */
  lemma VisitUnselected(w: Costs, ds: seq<Dist>, m: nat, s: Progress, p: nat, cost: nat, goal: Progress) returns (h: Hunt)
    requires Sized(w, s.marks) && p < |s.marks| == |ds| && cost <= m && !s.marks[p].selected
    requires goal == Visited(w, ds, m, s, p, cost)
    ensures h == FindOne(w, ds, m, s.marks, p, cost) && |h.marks| == |ds|
    ensures h.found && h.marks[p].matchingIndex < |ds| ==>
              goal == Progress(MarkPair(h.marks, p, h.marks[p].matchingIndex, cost), NoteZero(ds, s.zeroMap, p, cost, true),
                               NoteCandidate(ds, s.cands, p, h.marks[p].matchingIndex, cost, true))
    ensures !h.found ==> goal == Progress(h.marks, s.zeroMap, s.cands)
  {
    h := FindOne(w, ds, m, s.marks, p, cost);
  }

  // -------------------------------------------------------------------------------------------
  // Going through the remaining stripes is going through all of them
  // -------------------------------------------------------------------------------------------

  /** A search changes only the tentative candidate of the stripe it is for. */
  lemma SearchListTentative(w: Costs, ms: seq<Mark>, p: nat, list: seq<nat>, target: nat)
    requires Sized(w, ms) && p < |ms| && !ms[p].selected
    ensures var ns := SearchList(w, ms, p, list, target).marks;
            |ns| == |ms| && !ns[p].selected && forall q :: 0 <= q < |ms| && q != p ==> ns[q] == ms[q]
  {
  }

  lemma {:induction false} SearchFromTentative(w: Costs, ds: seq<Dist>, m: nat, ms: seq<Mark>, p: nat, target: nat, z: nat)
    requires Sized(w, ms) && p < |ms| == |ds| && target <= m && !ms[p].selected
    ensures var ns := SearchFrom(w, ds, m, ms, p, target, z).marks;
            |ns| == |ms| && !ns[p].selected && forall q :: 0 <= q < |ms| && q != p ==> ns[q] == ms[q]
    decreases Pow2(m) - z
  {
    if z < Pow2(m) {
      if Pop(z) != m - target {
        SearchFromTentative(w, ds, m, ms, p, target, z + 1);
      } else {
        var list := AgreeingStripes(ds, ds[p].parity, z, |ds|);
        SearchListTentative(w, ms, p, list, target);
        SearchFromTentative(w, ds, m, SearchList(w, ms, p, list, target).marks, p, target, z + 1);
      }
    }
  }

  lemma SearchAllTentative(w: Costs, ds: seq<Dist>, m: nat, ms: seq<Mark>, p: nat, target: nat)
    requires Sized(w, ms) && p < |ms| == |ds| && target <= m && !ms[p].selected
    ensures var ns := SearchAll(w, ds, m, ms, p, target).marks;
            |ns| == |ms| && !ns[p].selected && forall q :: 0 <= q < |ms| && q != p ==> ns[q] == ms[q]
  {
    if target == 0 {
      SearchListTentative(w, ms, p, ParityStripes(ds, ds[p].parity, |ds|), 0);
    } else {
      SearchFromTentative(w, ds, m, ms, p, target, 0);
    }
  }

  lemma FindOneTentative(w: Costs, ds: seq<Dist>, m: nat, ms: seq<Mark>, p: nat, cost: nat)
    requires Sized(w, ms) && p < |ms| == |ds| && cost <= m && !ms[p].selected
    ensures OnlyTentative(ms, FindOne(w, ds, m, ms, p, cost).marks, p)
  {
    var q := ms[p].matchingIndex;
    if ms[p].curCost != cost {
      SearchAllTentative(w, ds, m, ms, p, cost);
    } else if !(q < |ms| && !ms[q].selected) {
      SearchAllTentative(w, ds, m, ms[p := Mark(NO_INDEX, NO_COST, false)], p, cost);
    }
  }

  lemma MarkedFewer(ms: seq<Mark>, ns: seq<Mark>, p: nat, q: nat, cost: nat)
    requires OnlyTentative(ms, ns, p) && q < |ns|
    ensures Unselected(ns) <= Unselected(ms) && Unselected(MarkPair(ns, p, q, cost)) <= Unselected(ms)
  {
  }

  /** Selected stripes stay selected. */
  lemma VisitedKeeps(w: Costs, ds: seq<Dist>, m: nat, s: Progress, p: nat, cost: nat)
    requires Sized(w, s.marks) && p < |s.marks| == |ds| && cost <= m
    ensures Unselected(Visited(w, ds, m, s, p, cost).marks) <= Unselected(s.marks)
  {
    if !s.marks[p].selected {
      FindOneTentative(w, ds, m, s.marks, p, cost);
      var ns := FindOne(w, ds, m, s.marks, p, cost).marks;
      var q := ns[p].matchingIndex;
      MarkedFewer(s.marks, ns, p, if q < |ns| then q else p, cost);
    }
  }

  lemma IndicesWithout(list: seq<nat>, gone: set<nat>, n: nat)
    requires Indices(SetOf(list), n)
    ensures Indices(SetOf(Without(list, gone)), n)
  {
    WithoutMembers(list, gone);
    forall x | x in Without(list, gone) ensures x < n {
      assert x in SetOf(list);
    }
  }

  /** Stripes that are matched already make no difference to a round. */
  lemma {:induction false} RoundWithout(w: Costs, ds: seq<Dist>, m: nat, s: Progress, all: seq<nat>, gone: set<nat>, cost: nat)
    requires Sized(w, s.marks) && |s.marks| == |ds| && cost <= m && Indices(SetOf(all), |ds|)
    requires gone !! Unselected(s.marks)
    ensures Indices(SetOf(Without(all, gone)), |ds|)
    ensures RoundOver(w, ds, m, s, Without(all, gone), cost) == RoundOver(w, ds, m, s, all, cost)
    decreases |all|
  {
    IndicesWithout(all, gone, |ds|);
    if all != [] {
      var rest := Without(all[1..], gone);
      assert all[0] in SetOf(all) && SetOf(all[1..]) <= SetOf(all);
      var next := Visited(w, ds, m, s, all[0], cost);
      VisitedKeeps(w, ds, m, s, all[0], cost);
      RoundWithout(w, ds, m, next, all[1..], gone, cost);
      if all[0] in gone {
        assert all[0] !in Unselected(s.marks);
        assert [] + rest == rest;
      } else {
        assert ([all[0]] + rest)[1..] == rest;
      }
    }
  }

  lemma UpToShape(n: nat)
    ensures Rising(UpTo(n)) && Indices(SetOf(UpTo(n)), n) && forall x: nat :: x < n ==> x in UpTo(n)
  {
    UpToIs(n);
    forall x: nat | x < n ensures x in UpTo(n) {
      assert UpTo(n)[x] == x;
    }
  }

  /** A round over the remaining stripes is a round over all of them. */
  lemma RoundOverRemaining(w: Costs, ds: seq<Dist>, m: nat, s: Progress, remaining: seq<nat>, cost: nat)
    requires Sized(w, s.marks) && |s.marks| == |ds| && cost <= m
    requires Rising(remaining) && Indices(SetOf(remaining), |ds|) && Unselected(s.marks) <= SetOf(remaining)
    ensures Indices(SetOf(UpTo(|ds|)), |ds|)
    ensures RoundOver(w, ds, m, s, remaining, cost) == RoundOver(w, ds, m, s, UpTo(|ds|), cost)
  {
    UpToShape(|ds|);
    forall x | x in remaining ensures x in UpTo(|ds|) {
      assert x in SetOf(remaining);
    }
    var gone := ListIsWithout(remaining, UpTo(|ds|), Unselected(s.marks));
    RoundWithout(w, ds, m, s, UpTo(|ds|), gone, cost);
  }

  /** Once everyone is matched, further rounds change nothing. */
  lemma {:induction false} NobodyLeft(w: Costs, ds: seq<Dist>, m: nat, s: Progress, cost: nat)
    requires Sized(w, s.marks) && |s.marks| == |ds| && cost <= m && Unselected(s.marks) == {}
    ensures Rounds(w, ds, m, s, cost) == s
    decreases m - cost
  {
    if cost < m {
      UpToShape(|ds|);
      RoundWithout(w, ds, m, s, UpTo(|ds|), SetOf(UpTo(|ds|)), cost);
      WithoutMembers(UpTo(|ds|), SetOf(UpTo(|ds|)));
      NoMembers(Without(UpTo(|ds|), SetOf(UpTo(|ds|))));
      NobodyLeft(w, ds, m, s, cost + 1);
    }
  }

  /** A round over `list` that has come to position `t`. */
  ghost predicate InPlainRound(w: Costs, ds: seq<Dist>, m: nat, s: Progress, list: seq<nat>, t: nat, cost: nat, goal: Progress)
    requires Sized(w, s.marks) && |s.marks| == |ds| && cost <= m
  {
    t <= |list| && Indices(SetOf(list[t..]), |ds|) && goal == RoundOver(w, ds, m, s, list[t..], cost)
  }

  lemma RoundStepOver(w: Costs, ds: seq<Dist>, m: nat, s: Progress, list: seq<nat>, t: nat, cost: nat, goal: Progress)
    returns (next: Progress)
    requires Sized(w, s.marks) && |s.marks| == |ds| && cost <= m && InPlainRound(w, ds, m, s, list, t, cost, goal)
    requires t < |list|
    ensures list[t] < |ds| && next == Visited(w, ds, m, s, list[t], cost)
    ensures |next.marks| == |ds| && InPlainRound(w, ds, m, next, list, t + 1, cost, goal)
  {
    assert list[t..][0] == list[t] && list[t..][1..] == list[t + 1..];
    assert list[t..][0] in SetOf(list[t..]) && SetOf(list[t + 1..]) <= SetOf(list[t..]);
    next := Visited(w, ds, m, s, list[t], cost);
  }

  lemma EndPlainRound(w: Costs, ds: seq<Dist>, m: nat, s: Progress, list: seq<nat>, cost: nat, goal: Progress)
    requires Sized(w, s.marks) && |s.marks| == |ds| && cost <= m && InPlainRound(w, ds, m, s, list, |list|, cost, goal)
    ensures goal == s
  {
  }

  /** Between two rounds: `list` has all stripes that are left, none of which cost less than `cost` with each
      other, and `goal` is what the rounds from `cost` on make of `s`. */
  ghost predicate BetweenRounds(w: Costs, ds: seq<Dist>, m: nat, s: Progress, list: seq<nat>, cost: nat, goal: Progress) {
    && Sized(w, s.marks) && |s.marks| == |ds| && cost <= m
    && InOrderBelow(list, |ds|) && InRound(w, s.marks, list, 0, cost)
    && goal == Rounds(w, ds, m, s, cost)
  }

  /** The next round, over the stripes that remain. */
  lemma NextRound(w: Costs, ds: seq<Dist>, m: nat, s: Progress, remaining: seq<nat>, cost: nat, goal: Progress)
    returns (next: Progress)
    requires BetweenRounds(w, ds, m, s, remaining, cost, goal) && cost < m
    ensures InPlainRound(w, ds, m, s, remaining, 0, cost, next)
    ensures |next.marks| == |ds| && Sized(w, next.marks) && goal == Rounds(w, ds, m, next, cost + 1)
  {
    assert Unselected(s.marks) <= SetOf(remaining);
    RoundOverRemaining(w, ds, m, s, remaining, cost);
    next := RoundOver(w, ds, m, s, UpTo(|ds|), cost);
    assert remaining[0..] == remaining;
  }

  /** After the last round, or when no stripe remains. */
  lemma RoundsOver(w: Costs, ds: seq<Dist>, m: nat, s: Progress, remaining: seq<nat>, cost: nat, goal: Progress)
    requires BetweenRounds(w, ds, m, s, remaining, cost, goal) && (cost < m ==> remaining == [])
    ensures goal == s && Unselected(s.marks) <= SetOf(remaining) && Floor(w, s.marks, m)
  {
    if cost < m {
      NobodyLeft(w, ds, m, s, cost);
    }
  }
}
