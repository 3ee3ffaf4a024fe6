/**
 The memo table for pair costs (src/matching_generator.cc, get_cost): one cell per pair `i < j`, laid
 out as the rows of a triangle.
 */
module CostTable {
  import opened Stripes
  import opened Matchings

  // -------------------------------------------------------------------------------------------
  // The triangular index
  // -------------------------------------------------------------------------------------------

  /** The cell of the pair `i < j`: `i * (2 * n - 3 - i) / 2 + j - 1`. */
  function TriIndex(n: nat, i: nat, j: nat): int
    requires i < j < n
  {
    i * (2 * n - 3 - i) / 2 + j - 1
  }

  /** Where row `i` starts: row `r` has one cell for each of the `n - 1 - r` stripes after `r`. */
  function RowStart(n: nat, i: nat): nat
    requires i <= n
  {
    if i == 0 then 0 else RowStart(n, i - 1) + (n - i)
  }

  lemma {:induction false} RowStartClosed(n: nat, i: nat)
    requires i <= n
    ensures 2 * RowStart(n, i) == i * (2 * n - 1 - i)
  {
    if i > 0 {
      RowStartClosed(n, i - 1);
      var r := i - 1;
      assert r * (2 * n - 1 - r) + 2 * (n - i) == i * (2 * n - 1 - i);
    }
  }

  /** The formula addresses cell `j - i - 1` of row `i`. */
  lemma TriIndexInRow(n: nat, i: nat, j: nat)
    requires i < j < n
    ensures TriIndex(n, i, j) == RowStart(n, i) + (j - i - 1)
  {
    RowStartClosed(n, i);
    var a := i * (2 * n - 3 - i);
    assert a == 2 * (RowStart(n, i) - i) by {
      assert i * (2 * n - 1 - i) - i * (2 * n - 3 - i) == 2 * i;
    }
    assert a / 2 == RowStart(n, i) - i;
  }

  lemma {:induction false} RowStartMono(n: nat, i: nat, i': nat)
    requires i < i' <= n
    ensures RowStart(n, i) + (n - 1 - i) <= RowStart(n, i')
    decreases i'
  {
    if i < i' - 1 {
      RowStartMono(n, i, i' - 1);
    }
  }

  lemma TableSize(n: nat)
    ensures 2 * RowStart(n, n) == n * (n - 1)
  {
    RowStartClosed(n, n);
    assert 2 * n - 1 - n == n - 1;
  }

  /** Every pair has a cell of its own ... */
  lemma TriIndexInjective(n: nat, i: nat, j: nat, i': nat, j': nat)
    requires i < j < n && i' < j' < n
    ensures 0 <= TriIndex(n, i, j) < RowStart(n, n)
    ensures TriIndex(n, i, j) == TriIndex(n, i', j') ==> i == i' && j == j'
  {
    TriIndexInRow(n, i, j);
    TriIndexInRow(n, i', j');
    RowStartMono(n, i, n);
    if i < i' {
      RowStartMono(n, i, i');
    } else if i' < i {
      RowStartMono(n, i', i);
    }
  }

  /** ... and every cell belongs to a pair. */
  lemma {:induction false} TriIndexOnto(n: nat, rows: nat, x: nat) returns (i: nat, j: nat)
    requires rows <= n && x < RowStart(n, rows)
    ensures i < j < n && TriIndex(n, i, j) == x
    decreases rows
  {
    if x < RowStart(n, rows - 1) {
      i, j := TriIndexOnto(n, rows - 1, x);
    } else {
      i := rows - 1;
      j := x - RowStart(n, i) + i + 1;
      TriIndexInRow(n, i, j);
    }
  }

  // -------------------------------------------------------------------------------------------
  // The costs of all pairs
  // -------------------------------------------------------------------------------------------

  ghost function CostMatrix(c: Params, ds: seq<Dist>): (w: Costs)
    requires AllPlaced(c, ds)
    ensures |w| == |ds|
  {
    seq(|ds|, p requires 0 <= p < |ds| => seq(|ds|, q requires 0 <= q < |ds| => PairCost(c, ds, p, q)))
  }

  lemma CostMatrixAt(c: Params, ds: seq<Dist>, p: nat, q: nat)
    requires AllPlaced(c, ds) && p < |ds| && q < |ds|
    ensures |CostMatrix(c, ds)[p]| == |ds|
    ensures CostMatrix(c, ds)[p][q] == PairCost(c, ds, p, q)
  {
  }

  lemma CostMatrixSymmetric(c: Params, ds: seq<Dist>)
    requires AllPlaced(c, ds)
    ensures Symmetric(CostMatrix(c, ds))
  {
    var w := CostMatrix(c, ds);
    forall p, q | 0 <= p < |w| && 0 <= q < |w| ensures w[p][q] == w[q][p] {
      CostMatrixAt(c, ds, p, q);
      CostMatrixAt(c, ds, q, p);
    }
  }

  /** A pair costs at least its misaligned parities and at most `k + m`; a free pair is aligned. */
  lemma PairCostFacts(c: Params, ds: seq<Dist>, p: nat, q: nat)
    requires AllPlaced(c, ds) && p < |ds| && q < |ds|
    ensures PairCost(c, ds, p, q) <= c.k + c.m
    ensures Mismatches(ds[p].parity, ds[q].parity, c.m) <= PairCost(c, ds, p, q)
    ensures PairCost(c, ds, p, q) == 0 ==> ds[p].parity == ds[q].parity
  {
    var a, b := if p > q then ds[q] else ds[p], if p > q then ds[p] else ds[q];
    CostBounds(c, a, b);
    FreeMergeIff(c, a, b);
    MismatchesSymmetric(ds[p].parity, ds[q].parity, c.m);
  }

  lemma {:induction false} MismatchesSymmetric(p: seq<nat>, q: seq<nat>, i: nat)
    requires i <= |p| == |q|
    ensures Mismatches(p, q, i) == Mismatches(q, p, i)
  {
    if i > 0 {
      MismatchesSymmetric(p, q, i - 1);
    }
  }

  lemma CostMatrixBounded(c: Params, ds: seq<Dist>)
    requires AllPlaced(c, ds)
    ensures CostsAtMost(CostMatrix(c, ds), c.k + c.m)
  {
    var w := CostMatrix(c, ds);
    forall p, q | 0 <= p < |w| && 0 <= q < |w[p]| && p != q ensures w[p][q] <= c.k + c.m {
      CostMatrixAt(c, ds, p, q);
      PairCostFacts(c, ds, p, q);
    }
  }

  // -------------------------------------------------------------------------------------------
  // The memo table
  // -------------------------------------------------------------------------------------------

  /** A cell is either empty (255) or holds the cost of its pair. */
  ghost predicate TableOk(w: Costs, table: seq<nat>) {
    && Symmetric(w) && |table| == RowStart(|w|, |w|)
    && forall i, j :: 0 <= i < j < |w| ==> CellOk(w, table, i, j)
  }

  ghost predicate CellOk(w: Costs, table: seq<nat>, i: nat, j: nat)
    requires Symmetric(w) && i < j < |w| && |table| == RowStart(|w|, |w|)
  {
    TriIndexInjective(|w|, i, j, i, j);
    table[TriIndex(|w|, i, j)] in {NO_COST, w[i][j]}
  }

  /** Filling one cell leaves the others alone. */
  lemma FillKeepsTable(w: Costs, table: seq<nat>, i: nat, j: nat, x: nat)
    requires TableOk(w, table) && i < j < |w| && x == TriIndex(|w|, i, j) < |table|
    ensures TableOk(w, table[x := w[i][j]])
  {
    var t := table[x := w[i][j]];
    forall i', j' | 0 <= i' < j' < |w| ensures CellOk(w, t, i', j') {
      TriIndexInjective(|w|, i', j', i, j);
      assert CellOk(w, table, i', j');
    }
  }

  lemma EmptyTable(w: Costs, table: seq<nat>)
    requires Symmetric(w) && |table| == RowStart(|w|, |w|)
    requires forall x :: 0 <= x < |table| ==> table[x] == NO_COST
    ensures TableOk(w, table)
  {
    forall i, j | 0 <= i < j < |w| ensures CellOk(w, table, i, j) {
      TriIndexInjective(|w|, i, j, i, j);
    }
  }
}
