/**
 What the search leaves for the optimiser (src/matching_generator.cc, mark_matched and dist_based_search):
 every free pair has an entry in `zero_map`, and every costly pair with aligned parities is a candidate.
 */
module Bookkeeping {
  import opened Stripes
  import opened Matchings
  import opened Optimizer

  /** One of two partners is an entry of their parity list. */
  ghost predicate Entered(ds: seq<Dist>, z: ZeroMap, p: nat, q: nat)
    requires p < |ds|
  {
    ds[p].parity in z && (p in z[ds[p].parity] || q in z[ds[p].parity])
  }

  /** The pair of `p` is recorded: as a free pair, or as a candidate if it costs less than `m`. */
  ghost predicate RecordedAt(ds: seq<Dist>, ms: seq<Mark>, z: ZeroMap, cands: seq<nat>, m: nat, p: nat)
    requires p < |ms| == |ds|
  {
    var q := ms[p].matchingIndex;
    && (ms[p].curCost == 0 ==> Entered(ds, z, p, q))
    && (1 <= ms[p].curCost < m && q < |ds| && ds[p].parity == ds[q].parity ==> p in cands || q in cands)
  }

  ghost predicate Recorded(ds: seq<Dist>, ms: seq<Mark>, z: ZeroMap, cands: seq<nat>, m: nat)
    requires |ms| == |ds|
  {
    forall p :: 0 <= p < |ms| && ms[p].selected ==> RecordedAt(ds, ms, z, cands, m, p)
  }

  lemma NoteRecords(ds: seq<Dist>, z: ZeroMap, cands: seq<nat>, i: nat, j: nat, cost: nat)
    requires i < |ds| && j < |ds|
    ensures var z', cands' := NoteZero(ds, z, i, cost, true), NoteCandidate(ds, cands, i, j, cost, true);
            && (forall pd :: pd in z ==> pd in z' && forall x :: x in z[pd] ==> x in z'[pd])
            && (forall x :: x in cands ==> x in cands')
            && (cost == 0 ==> ds[i].parity in z' && i in z'[ds[i].parity])
            && (cost != 0 && ds[i].parity == ds[j].parity ==> i in cands')
  {
    var z', cands' := NoteZero(ds, z, i, cost, true), NoteCandidate(ds, cands, i, j, cost, true);
    if cost == 0 {
      assert z'[ds[i].parity][0] == i;
    } else if ds[i].parity == ds[j].parity {
      assert cands'[|cands|] == i;
    }
  }

  /** Marking a pair found by the search records it. */
  lemma MarkKeepsRecorded(w: Costs, ds: seq<Dist>, ms: seq<Mark>, ns: seq<Mark>, z: ZeroMap, cands: seq<nat>, m: nat,
                          i: nat, j: nat, cost: nat)
    requires Sized(w, ms) && |ms| == |ns| == |ds| && FreeMeansAligned(w, ds) && Recorded(ds, ms, z, cands, m)
    requires i < |ms| && j < |ms| && i != j && cost == w[i][j]
    requires forall p :: 0 <= p < |ms| && p != i && p != j && ns[p].selected ==> ns[p] == ms[p]
    ensures Recorded(ds, MarkPair(ns, i, j, cost), NoteZero(ds, z, i, cost, true),
                     NoteCandidate(ds, cands, i, j, cost, true), m)
  {
    var os := MarkPair(ns, i, j, cost);
    var z', cands' := NoteZero(ds, z, i, cost, true), NoteCandidate(ds, cands, i, j, cost, true);
    NoteRecords(ds, z, cands, i, j, cost);
    forall p | 0 <= p < |os| && os[p].selected ensures RecordedAt(ds, os, z', cands', m, p) {
      if p != i && p != j {
        assert RecordedAt(ds, ms, z, cands, m, p);
      }
    }
  }

  /** A tentative candidate is not recorded. */
  lemma TentativeKeepsRecorded(ds: seq<Dist>, ms: seq<Mark>, ns: seq<Mark>, z: ZeroMap, cands: seq<nat>, m: nat)
    requires |ms| == |ns| == |ds| && Recorded(ds, ms, z, cands, m)
    requires forall p :: 0 <= p < |ms| && ns[p].selected ==> ns[p] == ms[p]
    ensures Recorded(ds, ns, z, cands, m)
  {
    forall p | 0 <= p < |ns| && ns[p].selected ensures RecordedAt(ds, ns, z, cands, m, p) {
      assert RecordedAt(ds, ms, z, cands, m, p);
    }
  }

  /** The greedy for the rest records nothing, but its pairs cost at least `m`. */
  lemma RestKeepsRecorded(w: Costs, ds: seq<Dist>, ms: seq<Mark>, ns: seq<Mark>, z: ZeroMap, cands: seq<nat>, m: nat)
    requires Sized(w, ms) && Sized(w, ns) && |ms| == |ds| && Recorded(ds, ms, z, cands, m) && m >= 1
    requires Paired(w, ms) && Paired(w, ns) && Floor(w, ms, m)
    requires forall p :: 0 <= p < |ms| && ms[p].selected ==> ns[p] == ms[p]
    ensures Recorded(ds, ns, z, cands, m)
  {
    forall p | 0 <= p < |ns| && ns[p].selected ensures RecordedAt(ds, ns, z, cands, m, p) {
      if ms[p].selected {
        assert RecordedAt(ds, ms, z, cands, m, p);
      } else {
        NewPair(w, ms, ns, p);
      }
    }
  }

  /** A new pair consists of two stripes that were unselected. */
  lemma NewPair(w: Costs, ms: seq<Mark>, ns: seq<Mark>, p: nat)
    requires Sized(w, ms) && Sized(w, ns) && Paired(w, ms) && Paired(w, ns)
    requires forall q :: 0 <= q < |ms| && ms[q].selected ==> ns[q] == ms[q]
    requires p < |ms| && !ms[p].selected && ns[p].selected
    ensures ns[p].matchingIndex < |ms| && ns[p].matchingIndex != p && !ms[ns[p].matchingIndex].selected
    ensures ns[p].curCost == w[p][ns[p].matchingIndex]
  {
    assert MarkedPair(w, ns, p);
    var q := ns[p].matchingIndex;
    assert ms[q].selected ==> MarkedPair(w, ms, q);
  }
}
