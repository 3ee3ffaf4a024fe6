/**
 The index behind StripeMerge-P (src/matching_generator.cc, build_map and single_search): lists of
 stripes by parity placement and by partial parity key, cleaned up lazily.
 */
module SearchIndex {
  import opened BitTricks
  import opened Stripes
  import opened Keys
  import opened Matchings
  import opened CostTable

  type Lists = map<seq<nat>, seq<nat>>

  // -------------------------------------------------------------------------------------------
  // Erasing from a list
  // -------------------------------------------------------------------------------------------

  /** `list.erase` of the node that holds `x`. */
  function Erase(list: seq<nat>, x: nat): seq<nat> {
    if list == [] then []
    else if list[0] == x then list[1..]
    else [list[0]] + Erase(list[1..], x)
  }

  /** The list without the members of `gone`, in the same order. */
  ghost function Without(list: seq<nat>, gone: set<nat>): seq<nat> {
    if list == [] then []
    else (if list[0] in gone then [] else [list[0]]) + Without(list[1..], gone)
  }

  lemma {:induction false} WithoutMembers(list: seq<nat>, gone: set<nat>)
    ensures forall x :: x in Without(list, gone) <==> x in list && x !in gone
  {
    if list != [] {
      WithoutMembers(list[1..], gone);
      assert forall x :: x in list <==> x == list[0] || x in list[1..];
    }
  }

  lemma DistinctTail(list: seq<nat>)
    requires Distinct(list) && list != []
    ensures Distinct(list[1..]) && list[0] !in list[1..]
  {
  }

  lemma DistinctCons(x: nat, list: seq<nat>)
    requires Distinct(list) && x !in list
    ensures Distinct([x] + list)
  {
  }

  lemma {:induction false} WithoutDistinct(list: seq<nat>, gone: set<nat>)
    requires Distinct(list)
    ensures Distinct(Without(list, gone))
  {
    if list != [] {
      DistinctTail(list);
      WithoutDistinct(list[1..], gone);
      WithoutMembers(list[1..], gone);
      if list[0] !in gone {
        DistinctCons(list[0], Without(list[1..], gone));
      }
    }
  }

  lemma {:induction false} WithoutNothing(list: seq<nat>, gone: set<nat>)
    requires forall x :: x in list ==> x !in gone
    ensures Without(list, gone) == list
  {
    if list != [] {
      assert list[0] in list && forall x :: x in list[1..] ==> x in list;
      WithoutNothing(list[1..], gone);
    }
  }

  /** In a list without repetition, erasing a node removes its value. */
  lemma {:induction false} EraseIsWithout(list: seq<nat>, x: nat)
    requires Distinct(list)
    ensures Erase(list, x) == Without(list, {x})
  {
    if list != [] {
      DistinctTail(list);
      if list[0] == x {
        WithoutNothing(list[1..], {x});
      } else {
        EraseIsWithout(list[1..], x);
      }
    }
  }

  lemma {:induction false} WithoutTwice(list: seq<nat>, a: set<nat>, b: set<nat>)
    ensures Without(Without(list, a), b) == Without(list, a + b)
  {
    if list != [] {
      WithoutTwice(list[1..], a, b);
      var rest := Without(list[1..], a);
      if list[0] !in a {
        assert ([list[0]] + rest)[1..] == rest;
      } else {
        assert [] + rest == rest;
      }
    }
  }

  /** Emptying a clean-up queue: erase its nodes one after the other. */
  method EraseAll(list: seq<nat>, queue: seq<nat>) returns (r: seq<nat>)
    requires Distinct(list)
    ensures r == Without(list, SetOf(queue))
  {
    r := list;
    WithoutNothing(list, {});
    var todo := queue;
    ghost var gone: set<nat> := {};
    while todo != []
      invariant r == Without(list, gone)
      invariant gone + SetOf(todo) == SetOf(queue)
      decreases |todo|
    {
      var x := todo[0];
      WithoutDistinct(list, gone);
      EraseIsWithout(r, x);
      WithoutTwice(list, gone, {x});
      r := Erase(r, x);
      assert SetOf(todo) == {x} + SetOf(todo[1..]);
      gone := gone + {x};
      todo := todo[1..];
    }
    assert gone == SetOf(queue);
  }

  // -------------------------------------------------------------------------------------------
  // The index invariant
  // -------------------------------------------------------------------------------------------

  /** In index order, and without repetition. */
  ghost predicate Rising(list: seq<nat>) {
    forall i, j :: 0 <= i < j < |list| ==> list[i] < list[j]
  }

  lemma RisingCons(x: nat, list: seq<nat>)
    requires Rising(list) && forall y :: y in list ==> x < y
    ensures Rising([x] + list)
  {
    var all := [x] + list;
    forall i, j | 0 <= i < j < |all| ensures all[i] < all[j] {
      assert all[j] == list[j - 1] && list[j - 1] in list;
    }
  }

  lemma RisingTail(list: seq<nat>)
    requires Rising(list) && list != []
    ensures Rising(list[1..]) && forall y :: y in list[1..] ==> list[0] < y
  {
  }

  lemma {:induction false} WithoutRising(list: seq<nat>, gone: set<nat>)
    requires Rising(list)
    ensures Rising(Without(list, gone))
  {
    if list != [] {
      RisingTail(list);
      WithoutRising(list[1..], gone);
      WithoutMembers(list[1..], gone);
      if list[0] !in gone {
        RisingCons(list[0], Without(list[1..], gone));
      }
    }
  }

  ghost predicate ParityListOk(ds: seq<Dist>, pd: seq<nat>, list: seq<nat>) {
    Rising(list) && forall p :: p in list ==> p < |ds| && ds[p].parity == pd
  }

  ghost predicate PartialListOk(ds: seq<Dist>, key: seq<nat>, list: seq<nat>) {
    && Rising(list) && |key| > 0
    && forall p :: p in list ==> p < |ds| && PartialKey(ds[p].parity, key[|key| - 1]) == key
  }

  ghost predicate ParityMapOk(ds: seq<Dist>, parityMap: Lists) {
    forall pd :: pd in parityMap ==> ParityListOk(ds, pd, parityMap[pd])
  }

  ghost predicate PartialMapOk(ds: seq<Dist>, partialMap: Lists) {
    forall key :: key in partialMap ==> PartialListOk(ds, key, partialMap[key])
  }

  ghost predicate Listed(lists: Lists, key: seq<nat>, p: nat) {
    key in lists && p in lists[key]
  }

  /** The stripes of `live` are in their parity list. */
  ghost predicate ParityListed(ds: seq<Dist>, parityMap: Lists, live: set<nat>)
    requires Indices(live, |ds|)
  {
    forall p :: p in live ==> Listed(parityMap, ds[p].parity, p)
  }

  /** The stripes of `live` are in the list of each of their partial keys. */
  ghost predicate PartialListed(m: nat, ds: seq<Dist>, partialMap: Lists, live: set<nat>)
    requires Indices(live, |ds|)
  {
    forall p, s :: p in live && 1 <= s < Pow2(m) ==> Listed(partialMap, PartialKey(ds[p].parity, s), p)
  }

  /** Lists hold stripes in index order, each once and only under its own key; live stripes are in all of
      their lists. */
  ghost predicate IndexOk(m: nat, ds: seq<Dist>, parityMap: Lists, partialMap: Lists, live: set<nat>) {
    && Indices(live, |ds|)
    && ParityMapOk(ds, parityMap) && PartialMapOk(ds, partialMap)
    && ParityListed(ds, parityMap, live) && PartialListed(m, ds, partialMap, live)
  }

  lemma FewerLive(m: nat, ds: seq<Dist>, parityMap: Lists, partialMap: Lists, live: set<nat>, live': set<nat>)
    requires IndexOk(m, ds, parityMap, partialMap, live) && live' <= live
    ensures IndexOk(m, ds, parityMap, partialMap, live')
  {
  }

  /** Dropping stripes that are no longer live from one parity list keeps the index. */
  lemma ShrinkParityList(m: nat, ds: seq<Dist>, parityMap: Lists, partialMap: Lists, live: set<nat>,
                         pd: seq<nat>, gone: set<nat>)
    requires IndexOk(m, ds, parityMap, partialMap, live)
    requires pd in parityMap && gone !! live
    ensures IndexOk(m, ds, parityMap[pd := Without(parityMap[pd], gone)], partialMap, live)
  {
    var list := parityMap[pd];
    assert ParityListOk(ds, pd, list);
    WithoutRising(list, gone);
    WithoutMembers(list, gone);
    var after := parityMap[pd := Without(list, gone)];
    assert ParityListOk(ds, pd, after[pd]);
    forall p | p in live ensures Listed(after, ds[p].parity, p) {
      assert Listed(parityMap, ds[p].parity, p);
    }
  }

  lemma ShrinkPartialList(m: nat, ds: seq<Dist>, parityMap: Lists, partialMap: Lists, live: set<nat>,
                          key: seq<nat>, gone: set<nat>)
    requires IndexOk(m, ds, parityMap, partialMap, live)
    requires key in partialMap && gone !! live
    ensures IndexOk(m, ds, parityMap, partialMap[key := Without(partialMap[key], gone)], live)
  {
    var list := partialMap[key];
    assert PartialListOk(ds, key, list);
    WithoutRising(list, gone);
    WithoutMembers(list, gone);
    var after := partialMap[key := Without(list, gone)];
    assert PartialListOk(ds, key, after[key]);
    forall p, s | p in live && 1 <= s < Pow2(m) ensures Listed(after, PartialKey(ds[p].parity, s), p) {
      assert Listed(partialMap, PartialKey(ds[p].parity, s), p);
    }
  }

  /** A list has exactly the live stripes of its key, apart from stripes that are no longer live. */
  lemma LiveStripesOfKey(m: nat, ds: seq<Dist>, parityMap: Lists, partialMap: Lists, live: set<nat>,
                         p: nat, q: nat, s: nat)
    requires IndexOk(m, ds, parityMap, partialMap, live) && p in live && q in live
    requires |ds[p].parity| == |ds[q].parity| && 1 <= s < Pow2(m)
    ensures Listed(partialMap, PartialKey(ds[p].parity, s), p)
    ensures q in partialMap[PartialKey(ds[p].parity, s)] <==> AgreeOn(ds[p].parity, ds[q].parity, s)
  {
    var key := PartialKey(ds[p].parity, s);
    assert Listed(partialMap, key, p) && PartialListOk(ds, key, partialMap[key]);
    assert Listed(partialMap, PartialKey(ds[q].parity, s), q);
    assert key[|key| - 1] == s;
    SameKeyIff(ds[p].parity, ds[q].parity, s, s);
  }

  // -------------------------------------------------------------------------------------------
  // Building the index
  // -------------------------------------------------------------------------------------------

  /** `lists[key]` with `x` pushed to its back; a fresh list if there is none. */
  function Append(lists: Lists, key: seq<nat>, x: nat): Lists {
    lists[key := (if key in lists then lists[key] else []) + [x]]
  }

  /** So far only stripes below `index` are listed. */
  ghost predicate OnlyBelow(lists: Lists, index: nat) {
    forall key, p :: key in lists && p in lists[key] ==> p < index
  }

  /** `index` is listed under its masks below `s` and no others. */
  ghost predicate PartlyListed(ds: seq<Dist>, lists: Lists, index: nat, s: nat)
    requires index < |ds|
  {
    && (forall t :: 1 <= t < s ==> Listed(lists, PartialKey(ds[index].parity, t), index))
    && (forall key, p :: key in lists && p in lists[key] ==>
          p < index || (p == index && |key| > 0 && key[|key| - 1] < s))
  }

  lemma AppendRising(list: seq<nat>, x: nat)
    requires Rising(list) && forall y :: y in list ==> y < x
    ensures Rising(list + [x])
  {
    forall i | 0 <= i < |list| ensures list[i] < x {
      assert list[i] in list;
    }
  }

  /** Pushing `index` to the back of one of its lists. */
  lemma AppendToList(ds: seq<Dist>, key: seq<nat>, before: seq<nat>, index: nat)
    requires index < |ds| && |key| > 0 && PartialKey(ds[index].parity, key[|key| - 1]) == key
    requires PartialListOk(ds, key, before) && forall y :: y in before ==> y < index
    ensures PartialListOk(ds, key, before + [index])
  {
    AppendRising(before, index);
  }

  /** Appending to one list keeps every other entry. */
  lemma AppendKeeps(lists: Lists, key: seq<nat>, x: nat)
    ensures Listed(Append(lists, key, x), key, x)
    ensures forall k, p :: Listed(lists, k, p) ==> Listed(Append(lists, key, x), k, p)
    ensures forall k, p :: Listed(Append(lists, key, x), k, p) ==> Listed(lists, k, p) || (k == key && p == x)
  {
    var list := (if key in lists then lists[key] else []) + [x];
    assert list[|list| - 1] == x;
  }

  lemma AppendParity(ds: seq<Dist>, parityMap: Lists, index: nat)
    requires index < |ds| && ParityMapOk(ds, parityMap) && OnlyBelow(parityMap, index)
    requires ParityListed(ds, parityMap, Everyone(index))
    ensures var after := Append(parityMap, ds[index].parity, index);
            && ParityMapOk(ds, after) && OnlyBelow(after, index + 1) && ParityListed(ds, after, Everyone(index + 1))
  {
    var pd := ds[index].parity;
    var before, after := if pd in parityMap then parityMap[pd] else [], Append(parityMap, pd, index);
    assert ParityListOk(ds, pd, before);
    AppendRising(before, index);
    assert ParityListOk(ds, pd, after[pd]);
    forall p | p in Everyone(index + 1) ensures Listed(after, ds[p].parity, p) {
      assert p < index ==> p in Everyone(index) && Listed(parityMap, ds[p].parity, p);
    }
  }

  lemma AppendPartial(m: nat, ds: seq<Dist>, partialMap: Lists, index: nat, s: nat)
    requires index < |ds| && 1 <= s && PartialMapOk(ds, partialMap) && PartlyListed(ds, partialMap, index, s)
    requires PartialListed(m, ds, partialMap, Everyone(index))
    ensures var after := Append(partialMap, PartialKey(ds[index].parity, s), index);
            && PartialMapOk(ds, after) && PartlyListed(ds, after, index, s + 1)
            && PartialListed(m, ds, after, Everyone(index))
  {
    var key := PartialKey(ds[index].parity, s);
    assert key[|key| - 1] == s;
    var before, after := if key in partialMap then partialMap[key] else [], Append(partialMap, key, index);
    assert PartialListOk(ds, key, before);
    AppendToList(ds, key, before, index);
    assert PartialListOk(ds, key, after[key]);
    AppendKeeps(partialMap, key, index);
    AppendedPartly(ds, partialMap, index, s, key);
  }

  lemma AppendedPartly(ds: seq<Dist>, partialMap: Lists, index: nat, s: nat, key: seq<nat>)
    requires index < |ds| && 1 <= s && PartlyListed(ds, partialMap, index, s)
    requires key == PartialKey(ds[index].parity, s)
    ensures PartlyListed(ds, Append(partialMap, key, index), index, s + 1)
  {
    var after := Append(partialMap, key, index);
    assert key[|key| - 1] == s;
    AppendKeeps(partialMap, key, index);
    forall t | 1 <= t < s + 1 ensures Listed(after, PartialKey(ds[index].parity, t), index) {
      assert t < s ==> Listed(partialMap, PartialKey(ds[index].parity, t), index);
    }
    forall k, p | k in after && p in after[k]
      ensures p < index || (p == index && |k| > 0 && k[|k| - 1] < s + 1)
    {
      assert Listed(after, k, p);
      assert Listed(partialMap, k, p) || (k == key && p == index);
    }
  }

  lemma StripeListed(m: nat, ds: seq<Dist>, partialMap: Lists, index: nat)
    requires index < |ds| && PartlyListed(ds, partialMap, index, Pow2(m))
    requires PartialListed(m, ds, partialMap, Everyone(index))
    ensures PartialListed(m, ds, partialMap, Everyone(index + 1)) && OnlyBelow(partialMap, index + 1)
  {
    forall p, t | p in Everyone(index + 1) && 1 <= t < Pow2(m) ensures Listed(partialMap, PartialKey(ds[p].parity, t), p) {
      assert p < index ==> p in Everyone(index);
    }
  }

  // -------------------------------------------------------------------------------------------
  // Completeness of the search
  // -------------------------------------------------------------------------------------------

  /** Every live stripe that shares `index`'s key for this mask costs more than `target`. */
  ghost predicate MaskDone(w: Costs, ds: seq<Dist>, live: set<nat>, index: nat, target: nat, mask: nat)
    requires Symmetric(w) && |ds| == |w| && Indices(live, |w|) && index < |w|
  {
    forall q :: q in live && q != index && PartialKey(ds[q].parity, mask) == PartialKey(ds[index].parity, mask)
      ==> w[index][q] > target
  }

  /** `index` costs more than `target` with every other live stripe. */
  ghost predicate AllAbove(w: Costs, live: set<nat>, index: nat, target: nat)
    requires Symmetric(w) && Indices(live, |w|) && index < |w|
  {
    forall q :: q in live && q != index ==> w[index][q] > target
  }

  ghost predicate Prices(c: Params, ds: seq<Dist>, w: Costs) {
    && AllPlaced(c, ds) && Symmetric(w) && |w| == |ds|
    && forall p, q :: 0 <= p < |w| && 0 <= q < |w| ==> w[p][q] == PairCost(c, ds, p, q)
  }

  /** Two stripes of cost at most `target` meet under the key of some mask of `m - target` positions. */
  lemma CheapPairsMeet(c: Params, ds: seq<Dist>, w: Costs, p: nat, q: nat, target: nat) returns (mask: nat)
    requires Prices(c, ds, w) && p < |w| && q < |w|
    requires target <= c.m && w[p][q] <= target
    ensures mask < Pow2(c.m) && Pop(mask) == c.m - target
    ensures PartialKey(ds[p].parity, mask) == PartialKey(ds[q].parity, mask)
  {
    PairCostFacts(c, ds, p, q);
    assert w[p][q] == PairCost(c, ds, p, q);
    assert WellPlaced(c, ds[p]) && WellPlaced(c, ds[q]);
    mask := SharedKey(ds[p].parity, ds[q].parity, c.m - target);
  }

  /** Once every mask of `m - target` positions is done, nothing of cost at most `target` is left. */
  lemma MasksCoverAll(c: Params, ds: seq<Dist>, w: Costs, live: set<nat>, index: nat, target: nat)
    requires Prices(c, ds, w) && Indices(live, |w|) && index < |w| && target <= c.m
    requires forall mask: nat :: mask < Pow2(c.m) && Pop(mask) == c.m - target
               ==> MaskDone(w, ds, live, index, target, mask)
    ensures AllAbove(w, live, index, target)
  {
    forall q | q in live && q != index ensures w[index][q] > target {
      if w[index][q] <= target {
        var mask := CheapPairsMeet(c, ds, w, q, index, target);
        assert false;
      }
    }
  }
}
