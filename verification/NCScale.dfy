/**
 The baseline transfer scheme (src/ncscale_simulation.cc): round-robin migrations from the old nodes
 to the new ones, then round-robin delta blocks among the old nodes.
 */
module NCScale {
  import opened Arithmetic
  import opened Migration

  // -------------------------------------------------------------------------------------------
  // Round-robin quotas
  // -------------------------------------------------------------------------------------------

  /** `++j % n`. */
  function Next(j: nat, n: nat): nat
    requires j < n
  {
    if j + 1 == n then 0 else j + 1
  }

  /** After `r` full rounds of a round-robin over a quota of `per` each, and `j` more turns. */
  ghost predicate Even(v: seq<nat>, per: nat, r: nat, j: nat) {
    && j < |v| && r <= per && (r == per ==> j == 0)
    && forall x :: 0 <= x < |v| ==> v[x] + r + (if x < j then 1 else 0) == per
  }

  /** `x` lies on the way from `j` up to but not including `j'`, cyclically. */
  ghost predicate Passed(j: nat, x: nat, j': nat) {
    if j <= j' then j <= x < j' else x >= j || x < j'
  }

  /** The skipping loop: on to the next index with something left. */
  method SkipEmpty(v: seq<nat>, j0: nat, ghost left: nat) returns (j: nat)
    requires j0 < |v| && left < |v| && v[left] > 0
    ensures j < |v| && v[j] > 0
    ensures forall x :: 0 <= x < |v| && Passed(j0, x, j) ==> v[x] == 0
    ensures v[j0] > 0 ==> j == j0
  {
    j := j0;
    ghost var wrapped := false;
    while v[j] == 0
      invariant j < |v|
      invariant !wrapped ==> j0 <= j && forall x :: j0 <= x < j ==> v[x] == 0
      invariant wrapped ==> j <= left < j0 && (forall x :: 0 <= x < j || j0 <= x < |v| ==> v[x] == 0)
      decreases if wrapped then 0 else 1, |v| - j
    {
      if j + 1 == |v| {
        wrapped := true;
      }
      j := Next(j, |v|);
    }
  }

  // -------------------------------------------------------------------------------------------
  // Counting transfers
  // -------------------------------------------------------------------------------------------

  function CountFrom(s: seq<Transfer>, node: nat): nat {
    if s == [] then 0 else CountFrom(s[..|s| - 1], node) + if s[|s| - 1].source == node then 1 else 0
  }

  function CountTo(s: seq<Transfer>, node: nat): nat {
    if s == [] then 0 else CountTo(s[..|s| - 1], node) + if s[|s| - 1].target == node then 1 else 0
  }

  /** What node `node` has sent and what is left of its quota make up the quota. */
  ghost predicate SentQuota(s: seq<Transfer>, v: seq<nat>, first: nat, per: nat) {
    forall node :: first <= node < first + |v| ==> CountFrom(s, node) + v[node - first] == per
  }

  ghost predicate ReceivedQuota(s: seq<Transfer>, v: seq<nat>, first: nat, per: nat) {
    forall node :: first <= node < first + |v| ==> CountTo(s, node) + v[node - first] == per
  }

  lemma SendOne(s: seq<Transfer>, t: Transfer, v: seq<nat>, j: nat, first: nat, per: nat)
    requires SentQuota(s, v, first, per) && j < |v| && v[j] > 0 && t.source == first + j
    ensures SentQuota(s + [t], v[j := v[j] - 1], first, per)
  {
  }

  lemma ReceiveOne(s: seq<Transfer>, t: Transfer, v: seq<nat>, j: nat, first: nat, per: nat)
    requires ReceivedQuota(s, v, first, per) && j < |v| && v[j] > 0 && t.target == first + j
    ensures ReceivedQuota(s + [t], v[j := v[j] - 1], first, per)
  {
  }

  /** Every one of `n` nodes from `first` on sends exactly `per` blocks. */
  ghost predicate EachSends(s: seq<Transfer>, first: nat, n: nat, per: nat) {
    forall node :: first <= node < first + n ==> CountFrom(s, node) == per
  }

  ghost predicate EachReceives(s: seq<Transfer>, first: nat, n: nat, per: nat) {
    forall node :: first <= node < first + n ==> CountTo(s, node) == per
  }

  /** All transfers have this coefficient, stay within the ranges, and never go from a node to
      itself. */
  ghost predicate Proper(s: seq<Transfer>, coefficient: nat, sources: nat, first: nat, targets: nat) {
    forall i :: 0 <= i < |s| ==>
      s[i].coefficient == coefficient && 1 <= s[i].source <= sources && first <= s[i].target < first + targets
      && s[i].source != s[i].target
  }

  // -------------------------------------------------------------------------------------------
  // Rounds and totals
  // -------------------------------------------------------------------------------------------

  lemma TimesMono(a: nat, b: nat, n: nat)
    requires a <= b
    ensures a * n <= b * n
  {
  }

  /** `i` turns are `r` full rounds of `n` and `j` more. */
  ghost predicate Turns(i: nat, n: nat, r: nat, j: nat) {
    i == r * n + j && j < n
  }

  lemma TurnsBelow(i: nat, n: nat, r: nat, j: nat, per: nat)
    requires Turns(i, n, r, j) && i < n * per
    ensures r < per
  {
    if per <= r {
      TimesMono(per, r, n);
      assert false;
    }
  }

  lemma TurnsDone(i: nat, n: nat, r: nat, j: nat, per: nat)
    requires Turns(i, n, r, j) && i == n * per && r <= per
    ensures r == per && j == 0
  {
    if r < per {
      TimesMono(r + 1, per, n);
      OneMore(n, r);
      assert false;
    }
  }

  function RoundAfter(n: nat, r: nat, j: nat): nat {
    if j + 1 == n then r + 1 else r
  }

  lemma TurnIs(i: nat, n: nat, r: nat, j: nat)
    requires Turns(i, n, r, j)
    ensures i % n == j && (i + 1) % n == Next(j, n)
  {
    RemainderIs(i, n, r, j);
    if j + 1 == n {
      OneMore(n, r);
      RemainderIs(i + 1, n, r + 1, 0);
    } else {
      RemainderIs(i + 1, n, r, j + 1);
    }
  }

  /** One turn of a round-robin: the quota is not exhausted at `j`, and stays even. */
  lemma TakeTurn(v: seq<nat>, i: nat, r: nat, j: nat, per: nat)
    requires Even(v, per, r, j) && Turns(i, |v|, r, j) && i < |v| * per
    ensures v[j] > 0
    ensures Even(v[j := v[j] - 1], per, RoundAfter(|v|, r, j), Next(j, |v|))
    ensures Turns(i + 1, |v|, RoundAfter(|v|, r, j), Next(j, |v|))
  {
    TurnsBelow(i, |v|, r, j, per);
    OneMore(|v|, r);
  }

  /** After all turns every quota is used up exactly. */
  lemma QuotasMet(s: seq<Transfer>, v: seq<nat>, u: seq<nat>, first: nat, first': nat, per: nat, per': nat)
    requires SentQuota(s, v, first, per) && ReceivedQuota(s, u, first', per')
    requires forall x :: 0 <= x < |v| ==> v[x] == 0
    requires forall x :: 0 <= x < |u| ==> u[x] == 0
    ensures EachSends(s, first, |v|, per) && EachReceives(s, first', |u|, per')
  {
  }

  lemma ProperPush(s: seq<Transfer>, t: Transfer, coefficient: nat, sources: nat, first: nat, targets: nat)
    requires Proper(s, coefficient, sources, first, targets) && Proper([t], coefficient, sources, first, targets)
    ensures Proper(s + [t], coefficient, sources, first, targets)
  {
  }

  // -------------------------------------------------------------------------------------------
  // The two loops of get_scheme
  // -------------------------------------------------------------------------------------------

  /** The migration loop: node quotas `perSend` and `perRecv`, with equal totals. */
  method Migrations(n: nat, k: nat, perSend: nat, perRecv: nat) returns (scheme: seq<Transfer>)
    requires n > 0 && k > 0 && n * perSend == k * perRecv
    ensures |scheme| == n * perSend && Proper(scheme, 0, n, n + 1, k)
    ensures forall t :: 0 <= t < |scheme| ==> scheme[t] == Transfer(t % n + 1, t % k + n + 1, 0)
    ensures EachSends(scheme, 1, n, perSend) && EachReceives(scheme, n + 1, k, perRecv)
  {
    scheme := [];
    var send: seq<nat>, recv: seq<nat> := seq(n, _ => perSend), seq(k, _ => perRecv);
    var i, j, kk := 0, 0, 0;
    var total := n * perSend;
    ghost var r, q := 0, 0;
    while i < total
      invariant 0 <= i <= total && |scheme| == i && |send| == n && |recv| == k && 0 <= j && 0 <= kk
      invariant Even(send, perSend, r, j) && Turns(i, n, r, j)
      invariant Even(recv, perRecv, q, kk) && Turns(i, k, q, kk)
      invariant Proper(scheme, 0, n, n + 1, k)
      invariant forall t :: 0 <= t < |scheme| ==> scheme[t] == Transfer(t % n + 1, t % k + n + 1, 0)
      invariant SentQuota(scheme, send, 1, perSend) && ReceivedQuota(scheme, recv, n + 1, perRecv)
    {
      TurnIs(i, n, r, j);
      TurnIs(i, k, q, kk);
      TakeTurn(send, i, r, j, perSend);
      TakeTurn(recv, i, q, kk, perRecv);
      j := SkipEmpty(send, j, j);
      kk := SkipEmpty(recv, kk, kk);
      var t := Transfer(j + 1, kk + n + 1, 0);
      ProperPush(scheme, t, 0, n, n + 1, k);
      SendOne(scheme, t, send, j, 1, perSend);
      ReceiveOne(scheme, t, recv, kk, n + 1, perRecv);
      scheme := scheme + [t];
      r, q := RoundAfter(n, r, j), RoundAfter(k, q, kk);
      send := send[j := send[j] - 1];
      j := Next(j, n);
      recv := recv[kk := recv[kk] - 1];
      kk := Next(kk, k);
      i := i + 1;
    }
    TurnsDone(i, n, r, j, perSend);
    TurnsDone(i, k, q, kk, perRecv);
    QuotasMet(scheme, send, recv, 1, n + 1, perSend, perRecv);
  }

  /** The receivers' quotas are the senders', one node ahead. */
  ghost predicate OneAhead(send: seq<nat>, recv: seq<nat>) {
    |send| == |recv| && forall x :: 0 <= x < |send| ==> recv[Next(x, |send|)] == send[x]
  }

  lemma OneAheadStep(send: seq<nat>, recv: seq<nat>, j: nat)
    requires OneAhead(send, recv) && j < |send| && send[j] > 0
    ensures recv[Next(j, |send|)] > 0
    ensures OneAhead(send[j := send[j] - 1], recv[Next(j, |send|) := recv[Next(j, |send|)] - 1])
  {
  }

  lemma OneAheadZero(send: seq<nat>, recv: seq<nat>)
    requires OneAhead(send, recv) && forall x :: 0 <= x < |send| ==> send[x] == 0
    ensures forall x :: 0 <= x < |recv| ==> recv[x] == 0
  {
    forall x | 0 <= x < |recv| ensures recv[x] == 0 {
      var y := if x == 0 then |send| - 1 else x - 1;
      assert recv[Next(y, |send|)] == send[y];
    }
  }

  /** Transfer `t` of the deltas goes from the `t`-th node, round and round, to the one after it. */
  ghost predicate DeltaForm(scheme: seq<Transfer>, n: nat)
    requires n > 0
  {
    forall t :: 0 <= t < |scheme| ==> scheme[t] == Transfer(t % n + 1, (t + 1) % n + 1, 1)
  }

  /** Before turn `i` of the delta loop. */
  ghost predicate DeltaState(n: nat, per: nat, i: nat, r: nat, j: nat, k: nat, send: seq<nat>, recv: seq<nat>,
                             scheme: seq<Transfer>)
  {
    && n > 1 && i <= n * per && |scheme| == i && |send| == n && |recv| == n
    && Even(send, per, r, j) && Turns(i, n, r, j)
    && k == Next(j, n) && OneAhead(send, recv)
    && Proper(scheme, 1, n, 1, n) && DeltaForm(scheme, n)
    && SentQuota(scheme, send, 1, per) && ReceivedQuota(scheme, recv, 1, per)
  }

  /** Neither cursor has to skip, and the two are at different nodes. */
  lemma DeltaCursors(n: nat, per: nat, i: nat, r: nat, j: nat, k: nat, send: seq<nat>, recv: seq<nat>, scheme: seq<Transfer>)
    requires DeltaState(n, per, i, r, j, k, send, recv, scheme) && i < n * per
    ensures j < n && k < n && j != k && send[j] > 0 && recv[k] > 0
  {
    TakeTurn(send, i, r, j, per);
    OneAheadStep(send, recv, j);
  }

  lemma DeltaStep(n: nat, per: nat, i: nat, r: nat, j: nat, k: nat, send: seq<nat>, recv: seq<nat>, scheme: seq<Transfer>,
                  t: Transfer)
    requires DeltaState(n, per, i, r, j, k, send, recv, scheme) && i < n * per && t == Transfer(j + 1, k + 1, 1)
    requires j < n && k < n && j != k && send[j] > 0 && recv[k] > 0
    ensures DeltaState(n, per, i + 1, RoundAfter(n, r, j), Next(j, n), Next(k, n),
                       send[j := send[j] - 1], recv[k := recv[k] - 1], scheme + [t])
  {
    TurnIs(i, n, r, j);
    TakeTurn(send, i, r, j, per);
    OneAheadStep(send, recv, j);
    ProperPush(scheme, t, 1, n, 1, n);
    SendOne(scheme, t, send, j, 1, per);
    ReceiveOne(scheme, t, recv, k, 1, per);
  }

  /** The delta loop.  Sender and receiver advance in lock step, the receiver one ahead, so the loop
      never meets a node that would send to itself, never has to skip, and never breaks off into the
      repair branch. */
  method Deltas(n: nat, per: nat) returns (scheme: seq<Transfer>)
    requires n > 1
    ensures |scheme| == n * per && Proper(scheme, 1, n, 1, n)
    ensures forall t :: 0 <= t < |scheme| ==> scheme[t] == Transfer(t % n + 1, (t + 1) % n + 1, 1)
    ensures EachSends(scheme, 1, n, per) && EachReceives(scheme, 1, n, per)
  {
    scheme := [];
    var send: seq<nat>, recv: seq<nat> := seq(n, _ => per), seq(n, _ => per);
    var i, j, k := 0, 0, 1;
    var total := n * per;
    ghost var r := 0;
    while i < total
      invariant 0 <= i && 0 <= j && 0 <= k && DeltaState(n, per, i, r, j, k, send, recv, scheme)
    {
      DeltaCursors(n, per, i, r, j, k, send, recv, scheme);
      j := SkipEmpty(send, j, j);
      k := SkipEmpty(recv, k, k);
      if j == k {
        // The program's collision case, which leads to the repair branch.
        assert false;
      }
      DeltaStep(n, per, i, r, j, k, send, recv, scheme, Transfer(j + 1, k + 1, 1));
      scheme := scheme + [Transfer(j + 1, k + 1, 1)];
      r := RoundAfter(n, r, j);
      send := send[j := send[j] - 1];
      j := Next(j, n);
      recv := recv[k := recv[k] - 1];
      k := Next(k, n);
      i := i + 1;
    }
    TurnsDone(i, n, r, j, per);
    OneAheadZero(send, recv);
    QuotasMet(scheme, send, recv, 1, 1, per, per);
  }

  // -------------------------------------------------------------------------------------------
  // The simulation
  // -------------------------------------------------------------------------------------------

  function BatchSize(k: nat, m: nat): nat {
    2 * k * (k + m) * (2 * k + m)
  }

  lemma BatchIsTwice(k: nat, m: nat)
    requires k >= 1 && m >= 1
    ensures BatchSize(k, m) == 2 * (k * (2 * k + m) * (k + m))
    ensures k * (2 * k + m) * (k + m) > 0
  {
    var a, b := k + m, 2 * k + m;
    assert 2 * k * a * b == 2 * (k * b * a);
    assert k * b > 0;
    assert k * b * a > 0;
  }

  /** The two integer divisions of the constructor are exact. */
  lemma BatchDivides(k: nat, m: nat)
    requires k >= 1 && m >= 1
    ensures BatchSize(k, m) > 0
    ensures Quotient(BatchSize(k, m) / 2, k + m) == k * (2 * k + m)
    ensures BatchSize(k, m) / 2 == k * (2 * k + m) * (k + m)
  {
    BatchIsTwice(k, m);
    ExactQuotient(k * (2 * k + m), k + m);
  }

  datatype Result = BadInput | Scheme(migrations: seq<Transfer>, deltas: seq<Transfer>)

  class NCScaleSimulation {
    const rsK: nat
    const rsM: nat
    const rsN: nat
    const batchSize: nat
    const scalingNum: nat
    const singleScalingNum: nat
    const singleTotalCost: nat
    const singleDeltaCost: nat
    const oldMigrationNum: nat
    const oldDeltaNum: nat
    const newRecvNum: nat

    ghost predicate Valid() {
      && rsK >= 1 && rsM >= 1 && rsN == rsK + rsM && batchSize > 0
      && scalingNum == singleScalingNum * rsN && singleTotalCost == rsN - 1 && singleDeltaCost == rsM - 1
      && oldMigrationNum == rsK * singleScalingNum && oldDeltaNum == singleDeltaCost * singleScalingNum
      && newRecvNum == singleScalingNum * rsN
    }

    constructor (k: nat, m: nat)
      requires k >= 1 && m >= 1
      ensures Valid() && rsK == k && rsM == m
      ensures batchSize == 2 * k * (k + m) * (2 * k + m)
      ensures scalingNum == k * (2 * k + m) * (k + m) && GetTotalCosts() == scalingNum * (k + m - 1)
      ensures oldMigrationNum == k * (k * (2 * k + m)) && oldDeltaNum == (m - 1) * (k * (2 * k + m))
    {
      var batch := BatchSize(k, m);
      var scaling := batch / 2;
      var single := Quotient(scaling, k + m);
      BatchDivides(k, m);
      rsK, rsM, rsN := k, m, k + m;
      batchSize, scalingNum, singleScalingNum := batch, scaling, single;
      singleTotalCost := k + m - 1;
      singleDeltaCost := m - 1;
      oldMigrationNum := k * single;
      oldDeltaNum := (m - 1) * single;
      newRecvNum := single * (k + m);
    }

    /** `get_total_costs`. */
    function GetTotalCosts(): nat {
      scalingNum * singleTotalCost
    }

    /** `get_similar_batch_size`: the largest number of stripes, up to `s`, that comes in full batches;
        `get_scheme` has the same ratio for it as for `s`. */
    function GetSimilarBatchSize(s: nat): (r: nat)
      requires batchSize > 0
      ensures r <= s < r + batchSize && Quotient(r, batchSize) == Quotient(s, batchSize)
    {
      QuotientBounds(s, batchSize);
      ExactQuotient(Quotient(s, batchSize), batchSize);
      Quotient(s, batchSize) * batchSize
    }

    /** `get_scheme`: exactly `ratio` times the total cost, every old node with the same number of
        migrations out and of deltas out and in, every new node with the same number of migrations
        in, and no transfer from a node to itself. */
    method GetScheme(stripesNum: nat) returns (r: Result)
      requires Valid()
      ensures r.BadInput? <==> stripesNum < batchSize
      ensures r.Scheme? ==>
                var ratio := Quotient(stripesNum, batchSize);
                && |r.migrations + r.deltas| == ratio * GetTotalCosts()
                && Proper(r.migrations, 0, rsN, rsN + 1, rsK)
                && EachSends(r.migrations, 1, rsN, ratio * oldMigrationNum)
                && EachReceives(r.migrations, rsN + 1, rsK, ratio * newRecvNum)
                && (forall t :: 0 <= t < |r.migrations| ==>
                      r.migrations[t] == Transfer(t % rsN + 1, t % rsK + rsN + 1, 0))
                && (forall t :: 0 <= t < |r.deltas| ==> r.deltas[t] == Transfer(t % rsN + 1, (t + 1) % rsN + 1, 1))
                && Proper(r.deltas, 1, rsN, 1, rsN)
                && EachSends(r.deltas, 1, rsN, ratio * oldDeltaNum)
                && EachReceives(r.deltas, 1, rsN, ratio * oldDeltaNum)
    {
      var ratio := Quotient(stripesNum, batchSize);
      if ratio == 0 {
        return BadInput;
      }
      TotalsAgree(rsN, rsK, rsM, singleScalingNum, ratio);
      var migrations := Migrations(rsN, rsK, ratio * oldMigrationNum, ratio * newRecvNum);
      var deltas := Deltas(rsN, ratio * oldDeltaNum);
      r := Scheme(migrations, deltas);
    }
  }

  /** What the old nodes send is what the new nodes receive, and together with the deltas it is the
      total cost. */
  lemma TotalsAgree(n: nat, k: nat, m: nat, single: nat, ratio: nat)
    requires n == k + m && m >= 1
    ensures n * (ratio * (k * single)) == k * (ratio * (single * n))
    ensures n * (ratio * (k * single)) + n * (ratio * ((m - 1) * single)) == ratio * (single * n * (n - 1))
  {
    var x := ratio * single * n;
    assert n * (ratio * (k * single)) == x * k;
    assert k * (ratio * (single * n)) == x * k;
    assert n * (ratio * ((m - 1) * single)) == x * (m - 1);
    assert ratio * (single * n * (n - 1)) == x * (n - 1);
    assert x * k + x * (m - 1) == x * (n - 1);
  }
}
