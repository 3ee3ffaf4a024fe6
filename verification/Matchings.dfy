/**
 The theory of greedy matchings behind StripeMerge-G and StripeMerge-P
 (src/matching_generator.cc).

 Costs are a symmetric matrix `w` over stripe indices.  A stripe's mark holds the matching half of
 the program's `Stripe` record: its partner (or tentative candidate), that pair's cost, and whether
 it has been selected.
 */
module Matchings {

  datatype Mark = Mark(matchingIndex: nat, curCost: nat, selected: bool)

  const NO_INDEX: nat := 0xFFFF_FFFF
  const NO_COST: nat := 0xFF

  type Costs = seq<seq<nat>>

  ghost predicate Symmetric(w: Costs) {
    && (forall p :: 0 <= p < |w| ==> |w[p]| == |w|)
    && (forall p, q :: 0 <= p < |w| && 0 <= q < |w| ==> w[p][q] == w[q][p])
  }

  ghost predicate CostsAtMost(w: Costs, n: nat) {
    forall p, q :: 0 <= p < |w| && 0 <= q < |w[p]| && p != q ==> w[p][q] <= n
  }

  /** The matrix and the marks speak of the same stripes. */
  ghost predicate Sized(w: Costs, ms: seq<Mark>) {
    Symmetric(w) && |ms| == |w|
  }

  // -------------------------------------------------------------------------------------------
  // Selecting pairs
  // -------------------------------------------------------------------------------------------

  /** `mark_matched`, without its bookkeeping for the optimiser. */
  function MarkPair(ms: seq<Mark>, i: nat, j: nat, cost: nat): seq<Mark>
    requires i < |ms| && j < |ms|
  {
    ms[i := Mark(j, cost, true)][j := Mark(i, cost, true)]
  }

  ghost function Unselected(ms: seq<Mark>): set<nat> {
    set p: nat | p < |ms| && !ms[p].selected
  }

  /** The selected stripes come in pairs that point at each other and carry their true cost. */
  ghost predicate Paired(w: Costs, ms: seq<Mark>)
    requires Sized(w, ms)
  {
    forall p :: 0 <= p < |ms| && ms[p].selected ==> MarkedPair(w, ms, p)
  }

  ghost predicate MarkedPair(w: Costs, ms: seq<Mark>, p: nat)
    requires Sized(w, ms) && p < |ms|
  {
    var q := ms[p].matchingIndex;
    && q < |ms| && q != p
    && ms[q].selected && ms[q].matchingIndex == p
    && ms[p].curCost == w[p][q]
  }

  /** No two unselected stripes cost less than `c`. */
  ghost predicate Floor(w: Costs, ms: seq<Mark>, c: nat)
    requires Sized(w, ms)
  {
    forall p, q :: 0 <= p < |ms| && 0 <= q < |ms| && p != q && !ms[p].selected && !ms[q].selected
      ==> w[p][q] >= c
  }

  /** `p` is selected in a pair that costs at most `c`. */
  ghost predicate Settled(ms: seq<Mark>, p: nat, c: nat)
    requires p < |ms|
  {
    ms[p].selected && ms[p].curCost <= c
  }

  /** The greedy guarantee for one pair of stripes. */
  ghost predicate GuardedPair(w: Costs, ms: seq<Mark>, p: nat, q: nat)
    requires Sized(w, ms) && p < |ms| && q < |ms|
  {
    ms[p].selected || ms[q].selected ==> Settled(ms, p, w[p][q]) || Settled(ms, q, w[p][q])
  }

  /** The greedy guarantee: of two stripes of which one is selected, one is selected in a pair that is
      no worse than the two together. */
  ghost predicate Guarded(w: Costs, ms: seq<Mark>)
    requires Sized(w, ms)
  {
    forall p, q :: 0 <= p < |ms| && 0 <= q < |ms| && p != q ==> GuardedPair(w, ms, p, q)
  }

  ghost predicate Perfect(w: Costs, ms: seq<Mark>)
    requires Sized(w, ms)
  {
    Paired(w, ms) && Unselected(ms) == {}
  }

  /** No two stripes would both be better off with each other: one of them is matched at no more than
      the two would cost.  An unmatched stripe would be better off with anyone. */
  ghost predicate NoBlockingPair(w: Costs, ms: seq<Mark>)
    requires Sized(w, ms)
  {
    forall p, q :: 0 <= p < |ms| && 0 <= q < |ms| && p != q ==> Content(w, ms, p, q)
  }

  ghost predicate Content(w: Costs, ms: seq<Mark>, p: nat, q: nat)
    requires Sized(w, ms) && p < |ms| && q < |ms|
  {
    Settled(ms, p, w[p][q]) || Settled(ms, q, w[p][q])
  }

  lemma SelectKeepsPaired(w: Costs, ms: seq<Mark>, i: nat, j: nat, cost: nat)
    requires Sized(w, ms) && i < |ms| && j < |ms| && i != j
    requires !ms[i].selected && !ms[j].selected && cost == w[i][j]
    requires Paired(w, ms)
    ensures Paired(w, MarkPair(ms, i, j, cost))
  {
    var ns := MarkPair(ms, i, j, cost);
    forall p | 0 <= p < |ns| && ns[p].selected ensures MarkedPair(w, ns, p) {
      if p != i && p != j {
        assert MarkedPair(w, ms, p);
      }
    }
  }

  lemma SelectKeepsGuardedPair(w: Costs, ms: seq<Mark>, i: nat, j: nat, cost: nat, p: nat, q: nat)
    requires Sized(w, ms) && i < |ms| && j < |ms| && i != j && p < |ms| && q < |ms| && p != q
    requires !ms[i].selected && !ms[j].selected
    requires GuardedPair(w, ms, p, q) && Floor(w, ms, cost)
    ensures GuardedPair(w, MarkPair(ms, i, j, cost), p, q)
  {
  }

  /** Selecting a cheapest unselected pair keeps the pairing and the greedy guarantee. */
  lemma SelectKeeps(w: Costs, ms: seq<Mark>, i: nat, j: nat, cost: nat)
    requires Sized(w, ms) && i < |ms| && j < |ms| && i != j
    requires !ms[i].selected && !ms[j].selected && cost == w[i][j]
    requires Paired(w, ms) && Guarded(w, ms) && Floor(w, ms, cost)
    ensures Paired(w, MarkPair(ms, i, j, cost))
    ensures Guarded(w, MarkPair(ms, i, j, cost))
  {
    SelectKeepsPaired(w, ms, i, j, cost);
    forall p, q | 0 <= p < |ms| && 0 <= q < |ms| && p != q
      ensures GuardedPair(w, MarkPair(ms, i, j, cost), p, q)
    {
      SelectKeepsGuardedPair(w, ms, i, j, cost, p, q);
    }
  }

  /** A larger floor stays when stripes get selected. */
  lemma SelectKeepsFloor(w: Costs, ms: seq<Mark>, i: nat, j: nat, cost: nat, c: nat)
    requires Sized(w, ms) && i < |ms| && j < |ms| && Floor(w, ms, c)
    ensures Floor(w, MarkPair(ms, i, j, cost), c)
  {
  }

  lemma SelectShrinks(ms: seq<Mark>, i: nat, j: nat, cost: nat)
    requires i < |ms| && j < |ms| && i != j && !ms[i].selected && !ms[j].selected
    ensures Unselected(MarkPair(ms, i, j, cost)) == Unselected(ms) - {i, j}
    ensures |Unselected(MarkPair(ms, i, j, cost))| == |Unselected(ms)| - 2
  {
    var ns := MarkPair(ms, i, j, cost);
    assert Unselected(ns) == Unselected(ms) - {i, j};
    assert {i, j} <= Unselected(ms) && |{i, j}| == 2;
  }

  lemma TwoUnselected(w: Costs, ms: seq<Mark>) returns (p: nat, q: nat, cost: nat)
    requires Sized(w, ms) && |Unselected(ms)| >= 2
    ensures p in Unselected(ms) && q in Unselected(ms) && p != q && cost == w[p][q]
  {
    var u := Unselected(ms);
    p :| p in u;
    assert |u - {p}| >= 1;
    q :| q in u - {p};
    cost := w[p][q];
  }

  /** When every pair costs at most `c` and no unselected pair does, at most one stripe is unselected. */
  lemma AlmostEveryoneSelected(w: Costs, ms: seq<Mark>, c: nat)
    requires Sized(w, ms) && Floor(w, ms, c + 1)
    requires CostsAtMost(w, c)
    ensures |Unselected(ms)| <= 1
  {
    if |Unselected(ms)| >= 2 {
      var p, q, cost := TwoUnselected(w, ms);
      assert false;
    }
  }

  lemma NotBothUnselected(ms: seq<Mark>, p: nat, q: nat)
    requires |Unselected(ms)| <= 1 && p < |ms| && q < |ms| && p != q
    ensures ms[p].selected || ms[q].selected
  {
    if p in Unselected(ms) {
      assert |Unselected(ms) - {p}| == 0;
      assert q !in Unselected(ms) - {p};
    }
  }

  /** Built by cheapest selections until at most one stripe was left, a matching has no blocking pair. */
  lemma GuardedStable(w: Costs, ms: seq<Mark>)
    requires Sized(w, ms) && Guarded(w, ms) && |Unselected(ms)| <= 1
    ensures NoBlockingPair(w, ms)
  {
    forall p, q | 0 <= p < |ms| && 0 <= q < |ms| && p != q ensures Content(w, ms, p, q) {
      assert GuardedPair(w, ms, p, q);
      NotBothUnselected(ms, p, q);
    }
  }

  // -------------------------------------------------------------------------------------------
  // Sums over sets of stripes
  // -------------------------------------------------------------------------------------------

  ghost predicate Indices(s: set<nat>, n: nat) {
    forall p :: p in s ==> p < n
  }

  ghost function SetSum(s: set<nat>, v: seq<nat>): nat
    requires Indices(s, |v|)
  {
    if s == {} then 0
    else
      var p :| p in s;
      v[p] + SetSum(s - {p}, v)
  }

  lemma {:induction false} SetSumRemove(s: set<nat>, v: seq<nat>, p: nat)
    requires Indices(s, |v|) && p in s
    ensures SetSum(s, v) == v[p] + SetSum(s - {p}, v)
    decreases |s|
  {
    var q :| q in s && SetSum(s, v) == v[q] + SetSum(s - {q}, v);
    if p != q {
      SetSumRemove(s - {q}, v, p);
      SetSumRemove(s - {p}, v, q);
      assert s - {q} - {p} == s - {p} - {q};
    }
  }

  lemma SetSumAdd(s: set<nat>, v: seq<nat>, p: nat)
    requires Indices(s, |v|) && p !in s && p < |v|
    ensures SetSum(s + {p}, v) == v[p] + SetSum(s, v)
  {
    SetSumRemove(s + {p}, v, p);
    assert s + {p} - {p} == s;
  }

  /** The sum only looks at the values of its members. */
  lemma {:induction false} SetSumSame(s: set<nat>, v: seq<nat>, u: seq<nat>)
    requires Indices(s, |v|) && Indices(s, |u|)
    requires forall p :: p in s ==> v[p] == u[p]
    ensures SetSum(s, v) == SetSum(s, u)
    decreases |s|
  {
    if s != {} {
      var p :| p in s;
      SetSumRemove(s, v, p);
      SetSumRemove(s, u, p);
      SetSumSame(s - {p}, v, u);
    }
  }

  // -------------------------------------------------------------------------------------------
  // Matchings and their totals
  // -------------------------------------------------------------------------------------------

  /** An involution; its fixed points are the unmatched stripes. */
  ghost predicate IsMatching(mate: seq<nat>) {
    forall p :: 0 <= p < |mate| ==> mate[p] < |mate| && mate[mate[p]] == p
  }

  /** The matching that the marks stand for; an unselected stripe's tentative candidate is no partner. */
  ghost function Mates(ms: seq<Mark>): seq<nat> {
    seq(|ms|, p requires 0 <= p < |ms| => if ms[p].selected then ms[p].matchingIndex else p)
  }

  ghost function CurCosts(ms: seq<Mark>): seq<nat> {
    seq(|ms|, p requires 0 <= p < |ms| => ms[p].curCost)
  }

  /** The smaller index of each pair within `s`. */
  ghost function Firsts(s: set<nat>, mate: seq<nat>): set<nat>
    requires Indices(s, |mate|)
  {
    set p | p in s && p < mate[p]
  }

  ghost predicate Below(p: nat, n: nat) {
    p < n
  }

  ghost function Everyone(n: nat): (s: set<nat>)
    ensures Indices(s, n)
  {
    set p: nat | p < n && Below(p, n)
  }

  lemma {:induction false} EveryoneSize(n: nat)
    ensures |Everyone(n)| == n
  {
    if n > 0 {
      EveryoneSize(n - 1);
      assert Everyone(n) == Everyone(n - 1) + {n - 1};
    } else {
      assert Everyone(0) == {};
    }
  }

  /** The sum of `v` over the pairs of a matching, each pair counted once. */
  ghost function PairSum(mate: seq<nat>, v: seq<nat>): nat
    requires |v| == |mate|
  {
    SetSum(Firsts(Everyone(|mate|), mate), v)
  }

  ghost predicate ClosedUnder(s: set<nat>, mate: seq<nat>) {
    Indices(s, |mate|) && forall p :: p in s ==> mate[p] in s && mate[mate[p]] == p
  }

  lemma FirstsWithoutPair(s: set<nat>, mate: seq<nat>, p: nat)
    requires ClosedUnder(s, mate) && p in s && p < mate[p]
    ensures ClosedUnder(s - {p} - {mate[p]}, mate)
    ensures Firsts(s, mate) - {p} == Firsts(s - {p} - {mate[p]}, mate)
  {
  }

  /** Taking a pair out of the sums over its members and over the pairs. */
  lemma PairOff(s: set<nat>, mate: seq<nat>, u: seq<nat>, x: seq<nat>, p: nat, q: nat)
    requires ClosedUnder(s, mate) && |u| == |x| == |mate| && p in s && p < q == mate[p]
    ensures ClosedUnder(s - {p} - {q}, mate) && |s - {p} - {q}| < |s|
    ensures SetSum(s, x) == x[p] + x[q] + SetSum(s - {p} - {q}, x)
    ensures SetSum(Firsts(s, mate), u) == u[p] + SetSum(Firsts(s - {p} - {q}, mate), u)
  {
    SetSumRemove(s, x, p);
    SetSumRemove(s - {p}, x, q);
    FirstsWithoutPair(s, mate, p);
    SetSumRemove(Firsts(s, mate), u, p);
    assert s - {p} - {q} <= s - {p};
  }

  /** Taking out an unmatched stripe. */
  lemma SingleOff(s: set<nat>, mate: seq<nat>, x: seq<nat>, p: nat)
    requires ClosedUnder(s, mate) && |x| == |mate| && p in s && p == mate[p]
    ensures ClosedUnder(s - {p}, mate) && |s - {p}| < |s|
    ensures SetSum(s, x) == x[p] + SetSum(s - {p}, x)
    ensures Firsts(s, mate) == Firsts(s - {p}, mate)
  {
    SetSumRemove(s, x, p);
  }

  /** The members of a pair have the same value, and unmatched stripes have none. */
  ghost predicate Shared(s: set<nat>, mate: seq<nat>, v: seq<nat>) {
    ClosedUnder(s, mate) && |v| == |mate| && forall p :: p in s ==> v[p] == if mate[p] == p then 0 else v[mate[p]]
  }

  /** Summing a shared value over all members of the pairs counts every pair twice. */
  lemma {:induction false} PairsCountTwice(s: set<nat>, mate: seq<nat>, v: seq<nat>)
    requires Shared(s, mate, v)
    ensures SetSum(s, v) == 2 * SetSum(Firsts(s, mate), v)
    decreases |s|
  {
    if s != {} {
      var y :| y in s;
      var p := if y < mate[y] then y else mate[y];
      if mate[p] == p {
        SingleOff(s, mate, v, p);
        PairsCountTwice(s - {p}, mate, v);
      } else {
        PairOff(s, mate, v, v, p, mate[p]);
        PairsCountTwice(s - {p} - {mate[p]}, mate, v);
      }
    }
  }

  /** Each pair of a matching is paid for by its two members. */
  lemma {:induction false} MembersPay(s: set<nat>, mate: seq<nat>, u: seq<nat>, x: seq<nat>)
    requires ClosedUnder(s, mate) && |u| == |x| == |mate|
    requires forall p :: p in s && mate[p] != p ==> u[p] <= x[p] + x[mate[p]]
    ensures SetSum(Firsts(s, mate), u) <= SetSum(s, x)
    decreases |s|
  {
    if s != {} {
      var y :| y in s;
      var p := if y < mate[y] then y else mate[y];
      if mate[p] == p {
        SingleOff(s, mate, x, p);
        MembersPay(s - {p}, mate, u, x);
      } else {
        PairOff(s, mate, u, x, p, mate[p]);
        MembersPay(s - {p} - {mate[p]}, mate, u, x);
      }
    }
  }

  // -------------------------------------------------------------------------------------------
  // Half of the optimum
  // -------------------------------------------------------------------------------------------

  /** What a pair is worth, by its cost: less for a larger cost. */
  ghost predicate Antitone(gain: seq<nat>) {
    forall c, d :: 0 <= c <= d < |gain| ==> gain[c] >= gain[d]
  }

  ghost predicate Priced(w: Costs, gain: seq<nat>) {
    forall p, q :: 0 <= p < |w| && 0 <= q < |w[p]| && p != q ==> w[p][q] < |gain|
  }

  ghost function PairGain(w: Costs, gain: seq<nat>, p: nat, q: nat): nat
    requires Symmetric(w) && p < |w| && q < |w| && Priced(w, gain)
  {
    if p == q then 0 else gain[w[p][q]]
  }

  ghost function Gains(w: Costs, gain: seq<nat>, mate: seq<nat>): (v: seq<nat>)
    requires Symmetric(w) && Priced(w, gain) && |mate| == |w| && IsMatching(mate)
    ensures |v| == |mate|
  {
    seq(|mate|, p requires 0 <= p < |mate| => PairGain(w, gain, p, mate[p]))
  }

  /** The total worth of a matching. */
  ghost function TotalGain(w: Costs, gain: seq<nat>, mate: seq<nat>): nat
    requires Symmetric(w) && Priced(w, gain) && |mate| == |w| && IsMatching(mate)
  {
    PairSum(mate, Gains(w, gain, mate))
  }

  lemma PairedIsMatching(w: Costs, ms: seq<Mark>)
    requires Sized(w, ms) && Paired(w, ms)
    ensures IsMatching(Mates(ms))
    ensures forall p :: 0 <= p < |ms| ==>
              if ms[p].selected then Mates(ms)[p] != p && ms[p].curCost == w[p][Mates(ms)[p]] else Mates(ms)[p] == p
  {
    forall p | 0 <= p < |ms| && ms[p].selected
      ensures Mates(ms)[p] < |ms| && Mates(ms)[Mates(ms)[p]] == p
      ensures Mates(ms)[p] != p && ms[p].curCost == w[p][Mates(ms)[p]]
    {
      assert MarkedPair(w, ms, p);
    }
  }

  /** Every pair is worth no more than what its two stripes are worth in the matching. */
  lemma PairPays(w: Costs, ms: seq<Mark>, gain: seq<nat>, p: nat, q: nat)
    requires Sized(w, ms) && Paired(w, ms) && NoBlockingPair(w, ms)
    requires Priced(w, gain) && Antitone(gain)
    requires p < |ms| && q < |ms| && p != q
    requires IsMatching(Mates(ms))
    ensures PairGain(w, gain, p, q)
         <= PairGain(w, gain, p, Mates(ms)[p]) + PairGain(w, gain, q, Mates(ms)[q])
  {
    PairedIsMatching(w, ms);
    assert Content(w, ms, p, q);
    if Settled(ms, p, w[p][q]) {
      assert PairGain(w, gain, p, Mates(ms)[p]) == gain[ms[p].curCost];
    } else {
      assert PairGain(w, gain, q, Mates(ms)[q]) == gain[ms[q].curCost];
    }
  }

  lemma GainsShared(w: Costs, gain: seq<nat>, mate: seq<nat>)
    requires Symmetric(w) && Priced(w, gain) && |mate| == |w| && IsMatching(mate)
    ensures forall p :: 0 <= p < |mate| ==>
              Gains(w, gain, mate)[p] == if mate[p] == p then 0 else Gains(w, gain, mate)[mate[p]]
  {
  }

  lemma GainsPay(w: Costs, ms: seq<Mark>, gain: seq<nat>, other: seq<nat>, p: nat)
    requires Sized(w, ms) && Paired(w, ms) && NoBlockingPair(w, ms)
    requires Priced(w, gain) && Antitone(gain)
    requires |other| == |w| && IsMatching(other) && IsMatching(Mates(ms))
    requires p < |other| && other[p] != p
    ensures Gains(w, gain, other)[p]
         <= Gains(w, gain, Mates(ms))[p] + Gains(w, gain, Mates(ms))[other[p]]
  {
    PairPays(w, ms, gain, p, other[p]);
  }

  lemma EveryoneClosed(mate: seq<nat>)
    requires IsMatching(mate)
    ensures ClosedUnder(Everyone(|mate|), mate)
  {
  }

  /** A matching without blocking pair is worth at least half of any other matching, whatever the worth
      of a pair as long as cheaper pairs are worth more. */
  lemma HalfOptimal(w: Costs, ms: seq<Mark>, gain: seq<nat>, other: seq<nat>)
    requires Sized(w, ms) && Paired(w, ms) && NoBlockingPair(w, ms)
    requires Priced(w, gain) && Antitone(gain)
    requires |other| == |w| && IsMatching(other)
    ensures IsMatching(Mates(ms))
    ensures TotalGain(w, gain, other) <= 2 * TotalGain(w, gain, Mates(ms))
  {
    PairedIsMatching(w, ms);
    var mate, all := Mates(ms), Everyone(|ms|);
    EveryoneClosed(mate);
    EveryoneClosed(other);
    var u, x := Gains(w, gain, other), Gains(w, gain, mate);
    forall p | p in all && other[p] != p ensures u[p] <= x[p] + x[other[p]] {
      GainsPay(w, ms, gain, other, p);
    }
    GainsShared(w, gain, mate);
    PayTwice(all, mate, other, u, x);
  }

  lemma PayTwice(s: set<nat>, mate: seq<nat>, other: seq<nat>, u: seq<nat>, x: seq<nat>)
    requires ClosedUnder(s, other) && |u| == |x| == |mate| == |other|
    requires forall p :: p in s && other[p] != p ==> u[p] <= x[p] + x[other[p]]
    requires Shared(s, mate, x)
    ensures SetSum(Firsts(s, other), u) <= 2 * SetSum(Firsts(s, mate), x)
  {
    MembersPay(s, other, u, x);
    PairsCountTwice(s, mate, x);
  }

  /** The blocks saved: out of the `n = k + m` blocks a pair could move at worst. */
  ghost function SavingOf(n: nat): (gain: seq<nat>)
    ensures |gain| == n + 1 && Antitone(gain)
  {
    seq(n + 1, c requires 0 <= c <= n => n - c)
  }

  /** The number of pairs of cost at most `level`. */
  ghost function CountUpTo(n: nat, level: nat): (gain: seq<nat>)
    ensures |gain| == n + 1 && Antitone(gain)
  {
    seq(n + 1, c => if c <= level then 1 else 0)
  }

  /** It saves at least half of what any matching saves. */
  lemma HalfOptimalSaving(w: Costs, ms: seq<Mark>, n: nat, other: seq<nat>)
    requires Sized(w, ms) && Paired(w, ms) && NoBlockingPair(w, ms) && CostsAtMost(w, n)
    requires |other| == |w| && IsMatching(other)
    ensures Priced(w, SavingOf(n)) && IsMatching(Mates(ms))
    ensures TotalGain(w, SavingOf(n), other) <= 2 * TotalGain(w, SavingOf(n), Mates(ms))
  {
    HalfOptimal(w, ms, SavingOf(n), other);
  }

  /** At every cost level it has at least half as many pairs up to that level as any matching. */
  lemma HalfOptimalLevels(w: Costs, ms: seq<Mark>, n: nat, level: nat, other: seq<nat>)
    requires Sized(w, ms) && Paired(w, ms) && NoBlockingPair(w, ms) && CostsAtMost(w, n)
    requires |other| == |w| && IsMatching(other)
    ensures Priced(w, CountUpTo(n, level)) && IsMatching(Mates(ms))
    ensures TotalGain(w, CountUpTo(n, level), other) <= 2 * TotalGain(w, CountUpTo(n, level), Mates(ms))
  {
    HalfOptimal(w, ms, CountUpTo(n, level), other);
  }

  // -------------------------------------------------------------------------------------------
  // The total cost
  // -------------------------------------------------------------------------------------------

  /** The total cost of the selected pairs. */
  ghost function TotalCost(ms: seq<Mark>): nat {
    SetSum(SelectedFirsts(ms), CurCosts(ms))
  }

  ghost function SelectedFirsts(ms: seq<Mark>): set<nat> {
    set p: nat | p < |ms| && ms[p].selected && p < ms[p].matchingIndex
  }

  lemma SelectAddsCost(w: Costs, ms: seq<Mark>, i: nat, j: nat, cost: nat)
    requires Sized(w, ms) && i < j < |ms| && !ms[i].selected && !ms[j].selected
    ensures TotalCost(MarkPair(ms, i, j, cost)) == TotalCost(ms) + cost
  {
    var ns := MarkPair(ms, i, j, cost);
    assert SelectedFirsts(ns) == SelectedFirsts(ms) + {i};
    SetSumSame(SelectedFirsts(ms), CurCosts(ms), CurCosts(ns));
    SetSumAdd(SelectedFirsts(ms), CurCosts(ns), i);
  }

  /** It counts each pair of the matching once. */
  lemma TotalIsPairSum(ms: seq<Mark>)
    ensures TotalCost(ms) == PairSum(Mates(ms), CurCosts(ms))
  {
    assert SelectedFirsts(ms) == Firsts(Everyone(|ms|), Mates(ms));
  }

  ghost function Selected(ms: seq<Mark>): (s: set<nat>)
    ensures Indices(s, |ms|)
  {
    set p: nat | p < |ms| && ms[p].selected
  }

  lemma SelectedClosed(w: Costs, ms: seq<Mark>)
    requires Sized(w, ms) && Paired(w, ms)
    ensures ClosedUnder(Selected(ms), Mates(ms))
    ensures Firsts(Selected(ms), Mates(ms)) == SelectedFirsts(ms)
    ensures forall p :: p in Selected(ms) ==> Mates(ms)[p] != p && CurCosts(ms)[p] == CurCosts(ms)[Mates(ms)[p]]
  {
    forall p | p in Selected(ms)
      ensures Mates(ms)[p] in Selected(ms) && Mates(ms)[Mates(ms)[p]] == p
      ensures Mates(ms)[p] != p && CurCosts(ms)[p] == CurCosts(ms)[Mates(ms)[p]]
    {
      assert MarkedPair(w, ms, p);
      var q := ms[p].matchingIndex;
      assert MarkedPair(w, ms, q) && w[p][q] == w[q][p];
    }
  }

  /** Twice the total cost is the sum of the matched stripes' costs. */
  lemma TotalTwice(w: Costs, ms: seq<Mark>)
    requires Sized(w, ms) && Paired(w, ms)
    ensures 2 * TotalCost(ms) == SetSum(Selected(ms), CurCosts(ms))
  {
    SelectedClosed(w, ms);
    PairsCountTwice(Selected(ms), Mates(ms), CurCosts(ms));
  }

  lemma {:induction false} SumOfOnes(s: set<nat>, v: seq<nat>)
    requires Indices(s, |v|) && forall p :: p in s ==> v[p] == 1
    ensures SetSum(s, v) == |s|
    decreases |s|
  {
    if s != {} {
      var p :| p in s;
      SetSumRemove(s, v, p);
      SumOfOnes(s - {p}, v);
    }
  }

  lemma SelectedSplit(ms: seq<Mark>)
    ensures |Selected(ms)| + |Unselected(ms)| == |ms|
  {
    EveryoneSize(|ms|);
    assert Everyone(|ms|) == Selected(ms) + Unselected(ms);
  }

  /** Stripes are matched in pairs, so what is left has the parity of the whole. */
  lemma LeftoverParity(w: Costs, ms: seq<Mark>)
    requires Sized(w, ms) && Paired(w, ms)
    ensures |Unselected(ms)| % 2 == |ms| % 2
  {
    SelectedClosed(w, ms);
    SelectedSplit(ms);
    EvenlyMany(Selected(ms), Mates(ms), seq(|ms|, _ => 1));
  }

  lemma EvenlyMany(s: set<nat>, mate: seq<nat>, ones: seq<nat>)
    requires ClosedUnder(s, mate) && |ones| == |mate| && forall p :: 0 <= p < |ones| ==> ones[p] == 1
    requires forall p :: p in s ==> mate[p] != p
    ensures |s| % 2 == 0
  {
    PairsCountTwice(s, mate, ones);
    SumOfOnes(s, ones);
  }

  /** What both algorithms end with: pairs with true costs and without blocking pair; only one stripe of
      an odd number is left over. */
  ghost predicate Stable(w: Costs, ms: seq<Mark>)
    requires Sized(w, ms)
  {
    Paired(w, ms) && NoBlockingPair(w, ms) && |Unselected(ms)| == |ms| % 2
  }

  lemma GuardedIsStable(w: Costs, ms: seq<Mark>)
    requires Sized(w, ms) && Paired(w, ms) && Guarded(w, ms) && |Unselected(ms)| <= 1
    ensures Stable(w, ms)
  {
    GuardedStable(w, ms);
    LeftoverParity(w, ms);
  }

  /** An even number of stripes is matched completely. */
  lemma EvenIsPerfect(w: Costs, ms: seq<Mark>)
    requires Sized(w, ms) && Stable(w, ms) && |ms| % 2 == 0
    ensures Perfect(w, ms)
  {
    assert |Unselected(ms)| == 0;
  }

  // -------------------------------------------------------------------------------------------
  // Visiting the pairs of a perfect matching in index order
  // -------------------------------------------------------------------------------------------

  /** The pairs whose smaller index is below `i`. */
  ghost function FirstsBelow(ms: seq<Mark>, i: nat): set<nat> {
    set p: nat | p < i && p < |ms| && p < ms[p].matchingIndex
  }

  /** A stripe is flagged once its pair has been visited. */
  ghost predicate Flagged(ms: seq<Mark>, flag: seq<bool>, i: nat) {
    |flag| == |ms| && forall p :: 0 <= p < |ms| ==> (flag[p] <==> p < i || ms[p].matchingIndex < i)
  }

  ghost function SumBelow(ms: seq<Mark>, i: nat): nat {
    SetSum(FirstsBelow(ms, i), CurCosts(ms))
  }

  lemma PerfectFacts(w: Costs, ms: seq<Mark>)
    requires Sized(w, ms) && Perfect(w, ms)
    ensures forall p :: 0 <= p < |ms| ==> ms[p].selected && MarkedPair(w, ms, p)
  {
    forall p | 0 <= p < |ms| ensures ms[p].selected && MarkedPair(w, ms, p) {
      assert p !in Unselected(ms);
    }
  }

  /** The flag test picks the smaller index of each pair. */
  lemma VisitPair(w: Costs, ms: seq<Mark>, flag: seq<bool>, i: nat)
    requires Sized(w, ms) && Perfect(w, ms) && i < |ms| && Flagged(ms, flag, i)
    ensures ms[i].matchingIndex < |ms| && ms[i].matchingIndex != i && ms[i].curCost == w[i][ms[i].matchingIndex]
    ensures !flag[i] && !flag[ms[i].matchingIndex] <==> i < ms[i].matchingIndex
    ensures Flagged(ms, if i < ms[i].matchingIndex then flag[ms[i].matchingIndex := true][i := true] else flag, i + 1)
  {
    PerfectFacts(w, ms);
    forall p | 0 <= p < |ms|
      ensures ms[p].matchingIndex < |ms| && ms[ms[p].matchingIndex].matchingIndex == p && ms[p].matchingIndex != p
    {
      assert MarkedPair(w, ms, p);
    }
  }

  lemma PerfectInRange(w: Costs, ms: seq<Mark>, n: nat)
    requires Sized(w, ms) && Perfect(w, ms) && CostsAtMost(w, n)
    ensures forall p :: 0 <= p < |ms| ==>
              ms[p].matchingIndex < |ms| && ms[p].curCost == w[p][ms[p].matchingIndex] && ms[p].curCost <= n
  {
    PerfectFacts(w, ms);
  }

  lemma SumBelowNext(ms: seq<Mark>, i: nat)
    requires i < |ms|
    ensures SumBelow(ms, i + 1) == SumBelow(ms, i) + if i < ms[i].matchingIndex then ms[i].curCost else 0
  {
    if i < ms[i].matchingIndex {
      assert FirstsBelow(ms, i + 1) == FirstsBelow(ms, i) + {i};
      SetSumAdd(FirstsBelow(ms, i), CurCosts(ms), i);
    } else {
      assert FirstsBelow(ms, i + 1) == FirstsBelow(ms, i);
    }
  }

  lemma SumBelowAll(w: Costs, ms: seq<Mark>)
    requires Sized(w, ms) && Perfect(w, ms)
    ensures SumBelow(ms, 0) == 0 && SumBelow(ms, |ms|) == TotalCost(ms)
  {
    assert FirstsBelow(ms, 0) == {};
    assert FirstsBelow(ms, |ms|) == SelectedFirsts(ms) by {
      forall p: nat | p < |ms| ensures ms[p].selected {
        assert p !in Unselected(ms);
      }
    }
  }
}
