/**
 When the block pipeline drains: exactly when at most one thread computes, or nothing has to be encoded.
 A compute worker that finds its queue sealed and empty seals the write queue, even while another one
 still holds a chunk; if the write workers leave before that chunk is passed on, it is never written.
 */
module PipelineDrain {
  import opened Pipeline
  import opened PipelineRuns

  /** Every chunk received is written as often as it was received, with the right contents, and every
      memory block is free again. */
  ghost predicate Drained(cfg: Config, s: State) {
    && (forall i :: 0 <= i < |cfg.inputs| ==> TakenBy(s.log, i) == Deliverable(cfg.inputs[i]))
    && (forall t: Task :: CountWritten(s.written, Exactly(t)) == CountQueue(s.log, Exactly(t)))
    && RecordsOk(s.written)
    && (forall b: nat :: CountFree(s.free, b) == if b < Blocks(cfg) then 1 else 0)
  }

  /** A run of the whole program, up to the point where the main thread has joined everyone. */
  ghost predicate Complete(cfg: Config, acts: seq<Action>) {
    IsRun(Init(cfg), acts) && Exec(Init(cfg), acts).phase == Finished
  }

  predicate Plain(headers: seq<Header>) {
    forall k :: 0 <= k < |headers| ==> headers[k].coefficient == 0
  }

  /** No chunk before a shutdown signal has a coefficient. */
  predicate NothingToEncode(cfg: Config) {
    forall i :: 0 <= i < |cfg.inputs| ==> Plain(Deliverable(cfg.inputs[i]))
  }

  // -------------------------------------------------------------------------------------------
  // Runs that drain
  // -------------------------------------------------------------------------------------------

  /** Nothing is left to compute once the write queue is sealed, and nothing is left to write once a
      write worker has left. */
  ghost predicate Calm(s: State) {
    && (s.wSealed ==> forall i :: 0 <= i < |s.compute| ==> !s.compute[i].Busy?)
    && (forall i :: 0 <= i < |s.writers| && s.writers[i] == Exited ==> s.wq == [])
  }

  /** Nothing is being encoded, and nothing that receiver `i` has or will read has to be. */
  ghost predicate Unencoded(s: State)
  {
    && s.cq == []
    && (forall i :: 0 <= i < |s.compute| ==> !s.compute[i].Busy?)
    && (forall i :: 0 <= i < |s.receivers| && s.receivers[i].Busy? ==> s.receivers[i].task.header.coefficient == 0)
    && (forall i :: 0 <= i < |s.inbox| ==> Plain(Deliverable(s.inbox[i])))
  }

  lemma PlainTail(inbox: seq<Header>)
    requires !Stops(inbox) && Plain(Deliverable(inbox))
    ensures inbox[0].coefficient == 0 && Plain(Deliverable(inbox[1..]))
  {
    var d, rest := Deliverable(inbox), Deliverable(inbox[1..]);
    assert d[0] == inbox[0] && d[1..] == rest;
    forall k | 0 <= k < |rest| ensures rest[k].coefficient == 0 {
      assert rest[k] == d[k + 1];
    }
  }

  lemma AcceptKeepsUnencoded(s: State, i: nat)
    requires Unencoded(s) && Enabled(s, Accept(i))
    ensures Unencoded(Next(s, Accept(i)))
  {
    PlainTail(s.inbox[i]);
  }

  lemma StepKeepsUnencoded(s: State, a: Action)
    requires Unencoded(s) && Enabled(s, a)
    ensures Unencoded(Next(s, a))
  {
    if a.Accept? {
      AcceptKeepsUnencoded(s, a.i);
    }
  }

  /** A receiver only adds to the queues before anything is sealed. */
  lemma ForwardKeepsCalm(s: State, i: nat)
    requires Ordered(s) && Calm(s) && Enabled(s, Forward(i))
    ensures Calm(Next(s, Forward(i)))
  {
    assert !AllExited(s.receivers);
  }

  lemma StepKeepsCalm(s: State, a: Action)
    requires Ordered(s) && Calm(s) && Enabled(s, a) && (|s.compute| == 1 || Unencoded(s))
    ensures Calm(Next(s, a))
  {
    if a.Forward? {
      ForwardKeepsCalm(s, a.i);
    }
  }

  lemma {:induction false} RunKeepsCalm(cfg: Config, s: State, acts: seq<Action>)
    requires Inv(cfg, s) && Calm(s) && IsRun(s, acts) && (cfg.computers == 1 || Unencoded(s))
    ensures Calm(Exec(s, acts))
    decreases |acts|
  {
    if acts != [] {
      StepKeepsInv(cfg, s, acts[0]);
      StepKeepsCalm(s, acts[0]);
      if cfg.computers != 1 {
        StepKeepsUnencoded(s, acts[0]);
      }
      RunKeepsCalm(cfg, Next(s, acts[0]), acts[1..]);
    }
  }

  lemma {:induction false} ExitedHoldNothing(ws: seq<Worker>, sel: Selector)
    requires AllExited(ws)
    ensures CountHeld(ws, sel) == 0
  {
    if ws != [] {
      ExitedHoldNothing(ws[1..], sel);
    }
  }

  lemma NothingInFlight(cfg: Config, s: State, sel: Selector)
    requires Inv(cfg, s) && Calm(s) && s.phase == Finished && cfg.computers >= 1 && cfg.writers >= 1
    ensures InFlight(s, sel) == 0
  {
    assert s.compute[0] == Exited && s.writers[0] == Exited;
    ExitedHoldNothing(s.receivers, sel);
    ExitedHoldNothing(s.compute, sel);
    ExitedHoldNothing(s.writers, sel);
  }

  /** What a receiver that has left has taken is its whole input. */
  lemma ReceivedAll(cfg: Config, s: State, i: nat)
    requires Inv(cfg, s) && s.phase == Finished && i < |cfg.inputs|
    ensures TakenBy(s.log, i) == Deliverable(cfg.inputs[i])
  {
    assert s.receivers[i] == Exited;
    assert Share(s.log, s.receivers[i], s.inbox[i], i) == Deliverable(cfg.inputs[i]);
    assert TakenBy(s.log, i) + [] == TakenBy(s.log, i);
  }

  lemma CalmDrains(cfg: Config, s: State)
    requires Inv(cfg, s) && Calm(s) && s.phase == Finished && cfg.computers >= 1 && cfg.writers >= 1
    ensures Drained(cfg, s)
  {
    forall i | 0 <= i < |cfg.inputs| ensures TakenBy(s.log, i) == Deliverable(cfg.inputs[i]) {
      ReceivedAll(cfg, s, i);
    }
    forall t: Task ensures CountWritten(s.written, Exactly(t)) == CountQueue(s.log, Exactly(t)) {
      NothingInFlight(cfg, s, Exactly(t));
      assert Balanced(s, Exactly(t));
    }
    forall b: nat ensures CountFree(s.free, b) == if b < Blocks(cfg) then 1 else 0 {
      NothingInFlight(cfg, s, OnBlock(b));
      assert Places(s, b) == if b < Blocks(cfg) then 1 else 0;
    }
  }

  /** Exactly-once drain: with one compute worker, or nothing to encode, every complete run has written
      every received chunk once and returned every block, however the threads interleave. */
  lemma CompleteRunsDrain(cfg: Config, acts: seq<Action>)
    requires cfg.computers >= 1 && cfg.writers >= 1 && Complete(cfg, acts)
    requires cfg.computers == 1 || NothingToEncode(cfg)
    ensures Drained(cfg, Exec(Init(cfg), acts))
  {
    InitInv(cfg);
    RunKeepsCalm(cfg, Init(cfg), acts);
    EveryRunKeepsInv(cfg, acts);
    CalmDrains(cfg, Exec(Init(cfg), acts));
  }

  // -------------------------------------------------------------------------------------------
  // Runs that do not
  // -------------------------------------------------------------------------------------------

  /** A chunk that has to be encoded is still ahead of the compute workers' last step. */
  ghost predicate Pending(s: State)
    requires |s.receivers| == |s.inbox|
  {
    || (exists i :: 0 <= i < |s.inbox| && s.receivers[i] != Exited && !Plain(Deliverable(s.inbox[i])))
    || (exists i :: 0 <= i < |s.receivers| && s.receivers[i].Busy? && s.receivers[i].task.header.coefficient != 0)
    || s.cq != []
    || (exists i :: IsBusy(s.compute, i))
  }

  lemma AcceptKeepsPending(s: State, i: nat)
    requires |s.receivers| == |s.inbox| && Pending(s) && Enabled(s, Accept(i))
    ensures |Next(s, Accept(i)).receivers| == |Next(s, Accept(i)).inbox| && Pending(Next(s, Accept(i)))
  {
    var s' := Next(s, Accept(i));
    if j :| 0 <= j < |s.inbox| && s.receivers[j] != Exited && !Plain(Deliverable(s.inbox[j])) {
      if j == i && s.inbox[i][0].coefficient != 0 {
        assert s'.receivers[i].Busy? && s'.receivers[i].task.header.coefficient != 0;
      } else if j == i {
        PlainContra(s.inbox[i]);
        assert s'.receivers[i] != Exited && s'.inbox[i] == s.inbox[i][1..];
      } else {
        assert s'.receivers[j] == s.receivers[j] && s'.inbox[j] == s.inbox[j];
      }
    } else if j :| 0 <= j < |s.receivers| && s.receivers[j].Busy? && s.receivers[j].task.header.coefficient != 0 {
      assert s'.receivers[j] == s.receivers[j];
    } else if s.cq == [] {
      var c :| IsBusy(s.compute, c);
      assert IsBusy(s'.compute, c);
    }
  }

  lemma PlainContra(inbox: seq<Header>)
    requires !Stops(inbox) && inbox[0].coefficient == 0 && !Plain(Deliverable(inbox))
    ensures !Plain(Deliverable(inbox[1..]))
  {
  }

  lemma StepKeepsPending(s: State, a: Action)
    requires |s.receivers| == |s.inbox| && Pending(s) && Enabled(s, a) && !a.Accept?
    requires forall i :: 0 <= i < |s.compute| ==> !IsBusy(s.compute, i)
    ensures |Next(s, a).receivers| == |Next(s, a).inbox| && Pending(Next(s, a))
  {
    var s' := Next(s, a);
    if j :| 0 <= j < |s.inbox| && s.receivers[j] != Exited && !Plain(Deliverable(s.inbox[j])) {
      assert s'.receivers[j] != Exited && s'.inbox[j] == s.inbox[j];
    } else if j :| 0 <= j < |s.receivers| && s.receivers[j].Busy? && s.receivers[j].task.header.coefficient != 0 {
      if a == Forward(j) {
        assert s'.cq != [];
      } else {
        assert s'.receivers[j] == s.receivers[j];
      }
    } else if a.CTake? {
      assert IsBusy(s'.compute, a.i);
    }
  }

  lemma FinishedIsNotPending(cfg: Config, s: State)
    requires Inv(cfg, s) && s.phase == Finished && cfg.computers >= 1
    ensures !Pending(s)
  {
    assert s.compute[0] == Exited;
  }

  /** A chunk that has to be encoded reaches the hands of a compute worker. */
  lemma {:induction false} SomeoneComputes(cfg: Config, s: State) returns (acts: seq<Action>, f: nat)
    requires Inv(cfg, s) && Pending(s) && cfg.computers >= 1 && cfg.writers >= 1
    ensures IsRun(s, acts) && Inv(cfg, Exec(s, acts)) && IsBusy(Exec(s, acts).compute, f)
    decreases Work(s)
  {
    if i :| 0 <= i < |s.compute| && IsBusy(s.compute, i) {
      acts, f := [], i;
    } else {
      if s.phase == Finished {
        FinishedIsNotPending(cfg, s);
        assert false;
      }
      var a := SomeoneMoves(cfg, s, cfg.computers, 0);
      if a.Accept? {
        AcceptKeepsPending(s, a.i);
      } else {
        StepKeepsPending(s, a);
      }
      StepKeepsInv(cfg, s, a);
      StepLeavesLess(s, a);
      var rest;
      rest, f := SomeoneComputes(cfg, Next(s, a));
      RunCons(s, a, rest);
      acts := [a] + rest;
    }
  }

  lemma SparedStays(s: State, a: Action, f: nat, g: nat)
    requires Enabled(s, a) && Spares(a, f) && IsBusy(s.compute, f) && HeldUp(s, f, g)
    ensures IsBusy(Next(s, a).compute, f) && HeldUp(Next(s, a), f, g)
  {
  }

  /** While compute worker `f` holds on to its task, everyone else can leave. */
  lemma {:induction false} OthersLeave(cfg: Config, s: State, f: nat, g: nat) returns (acts: seq<Action>)
    requires Inv(cfg, s) && IsBusy(s.compute, f) && HeldUp(s, f, g) && cfg.writers >= 1
    ensures IsRun(s, acts) && Inv(cfg, Exec(s, acts)) && LeftAlone(Exec(s, acts), f)
    decreases Work(s)
  {
    if LeftAlone(s, f) {
      acts := [];
    } else {
      assert !AllExited(s.compute);
      var a := SomeoneMoves(cfg, s, f, g);
      SparedStays(s, a, f, g);
      StepKeepsInv(cfg, s, a);
      StepLeavesLess(s, a);
      var rest := OthersLeave(cfg, Next(s, a), f, g);
      RunCons(s, a, rest);
      acts := [a] + rest;
    }
  }

  /** The last compute worker passes its task on when nobody is left to write it. */
  lemma LastOneLosesIt(cfg: Config, s: State, f: nat, g: nat) returns (acts: seq<Action>)
    requires Inv(cfg, s) && LeftAlone(s, f) && HeldUp(s, f, g)
    ensures IsRun(s, acts) && Exec(s, acts).phase == Finished && Exec(s, acts).wq != []
  {
    assert s.compute[g] == Exited;
    HeldIsBlock(cfg, s, s.compute, f);
    var s1 := Next(s, CPush(f));
    var s2 := Next(s1, CQuit(f));
    var s3 := Next(s2, CSeal(f));
    var s4 := Next(s3, CJoin);
    RunCons(s4, WJoin, []);
    RunCons(s3, CJoin, [WJoin] + []);
    RunCons(s2, CSeal(f), [CJoin] + ([WJoin] + []));
    RunCons(s1, CQuit(f), [CSeal(f)] + ([CJoin] + ([WJoin] + [])));
    RunCons(s, CPush(f), [CQuit(f)] + ([CSeal(f)] + ([CJoin] + ([WJoin] + []))));
    acts := [CPush(f)] + ([CQuit(f)] + ([CSeal(f)] + ([CJoin] + ([WJoin] + []))));
  }

  lemma QueuedIsNotWritten(cfg: Config, s: State)
    requires Inv(cfg, s) && s.wq != []
    ensures !Drained(cfg, s)
  {
    var sel := Exactly(s.wq[0]);
    QueueMember(s.wq, 0, sel);
    assert InFlight(s, sel) >= 1;
    assert Balanced(s, sel);
  }

  lemma InitPending(cfg: Config)
    requires !NothingToEncode(cfg)
    ensures Inv(cfg, Init(cfg)) && Pending(Init(cfg))
  {
    InitInv(cfg);
    var i :| 0 <= i < |cfg.inputs| && !Plain(Deliverable(cfg.inputs[i]));
    assert Init(cfg).receivers[i] != Exited && Init(cfg).inbox[i] == cfg.inputs[i];
  }

  /** With two compute workers and one chunk to encode, some complete run loses a chunk. */
  lemma SomeRunLosesAChunk(cfg: Config) returns (acts: seq<Action>)
    requires cfg.computers >= 2 && cfg.writers >= 1 && !NothingToEncode(cfg)
    ensures Complete(cfg, acts) && !Drained(cfg, Exec(Init(cfg), acts))
  {
    InitPending(cfg);
    var s0 := Init(cfg);
    var toBusy, f := SomeoneComputes(cfg, s0);
    var s1 := Exec(s0, toBusy);
    var g := if f == 0 then 1 else 0;
    var toAlone := OthersLeave(cfg, s1, f, g);
    var s2 := Exec(s1, toAlone);
    StillHeldUp(cfg, s2, f, g);
    var toEnd := LastOneLosesIt(cfg, s2, f, g);
    RunAppend(s1, toAlone, toEnd);
    RunAppend(s0, toBusy, toAlone + toEnd);
    acts := toBusy + (toAlone + toEnd);
    EveryRunKeepsInv(cfg, acts);
    QueuedIsNotWritten(cfg, Exec(s0, acts));
  }

  lemma StillHeldUp(cfg: Config, s: State, f: nat, g: nat)
    requires Inv(cfg, s) && LeftAlone(s, f) && g < cfg.computers && g != f
    ensures HeldUp(s, f, g)
  {
  }

  /** The pipeline is lossless for a configuration exactly when it has one compute worker or nothing to
      encode. */
  lemma LosslessIff(cfg: Config)
    requires cfg.computers >= 1 && cfg.writers >= 1
    ensures (forall acts :: Complete(cfg, acts) ==> Drained(cfg, Exec(Init(cfg), acts)))
       <==> (cfg.computers == 1 || NothingToEncode(cfg))
  {
    if cfg.computers == 1 || NothingToEncode(cfg) {
      forall acts | Complete(cfg, acts) ensures Drained(cfg, Exec(Init(cfg), acts)) {
        CompleteRunsDrain(cfg, acts);
      }
    } else {
      var acts := SomeRunLosesAChunk(cfg);
    }
  }

  // -------------------------------------------------------------------------------------------
  // How much can be lost
  // -------------------------------------------------------------------------------------------

  /** Once the write queue is sealed, some compute worker holds nothing; and once every write worker has
      left, only the others can still queue a chunk. */
  ghost predicate Limited(s: State) {
    && (s.wSealed ==> CountHeld(s.compute, AnyTask) < |s.compute|)
    && (AllExited(s.writers) ==> |s.wq| + CountHeld(s.compute, AnyTask) < |s.compute|)
  }

  lemma {:induction false} HeldAtMost(ws: seq<Worker>)
    ensures CountHeld(ws, AnyTask) <= |ws|
  {
    if ws != [] {
      HeldAtMost(ws[1..]);
    }
  }

  lemma {:induction false} OneIdle(ws: seq<Worker>, i: nat)
    requires i < |ws| && !ws[i].Busy?
    ensures CountHeld(ws, AnyTask) < |ws|
  {
    if i > 0 {
      OneIdle(ws[1..], i - 1);
    } else {
      HeldAtMost(ws[1..]);
    }
  }

  /** What the compute workers hold together changes only when one of them takes or passes on. */
  lemma ComputerKeepsLimited(s: State, a: Action)
    requires Ordered(s) && Limited(s) && |s.writers| >= 1
    requires Enabled(s, a) && (a.CTake? || a.CPush? || a.CQuit? || a.CSeal?)
    ensures Limited(Next(s, a))
  {
    var s' := Next(s, a);
    HeldUpdate(s.compute, a.i, s'.compute[a.i], AnyTask);
    if a.CSeal? {
      OneIdle(s'.compute, a.i);
    }
    assert AllExited(s.writers) ==> s.writers[0] == Exited;
  }

  lemma WriterKeepsLimited(s: State, a: Action)
    requires Ordered(s) && Limited(s) && |s.writers| >= 1
    requires Enabled(s, a) && (a.WTake? || a.WDone? || a.WQuit?)
    ensures Limited(Next(s, a))
  {
    assert AllExited(Next(s, a).writers) ==> Next(s, a).writers[a.i] == Exited;
  }

  lemma ForwardKeepsLimited(s: State, i: nat)
    requires Ordered(s) && Limited(s) && |s.writers| >= 1 && Enabled(s, Forward(i))
    ensures Limited(Next(s, Forward(i)))
  {
    assert !AllExited(s.receivers);
    assert s.writers[0] == Exited ==> s.wSealed;
  }

  lemma StepKeepsLimited(s: State, a: Action)
    requires Ordered(s) && Limited(s) && |s.writers| >= 1 && Enabled(s, a)
    ensures Limited(Next(s, a))
  {
    if a.CTake? || a.CPush? || a.CQuit? || a.CSeal? {
      ComputerKeepsLimited(s, a);
    } else if a.WTake? || a.WDone? || a.WQuit? {
      WriterKeepsLimited(s, a);
    } else if a.Forward? {
      ForwardKeepsLimited(s, a.i);
    }
  }

  lemma {:induction false} RunKeepsLimited(cfg: Config, s: State, acts: seq<Action>)
    requires Inv(cfg, s) && Limited(s) && cfg.writers >= 1 && IsRun(s, acts)
    ensures Limited(Exec(s, acts))
    decreases |acts|
  {
    if acts != [] {
      StepKeepsInv(cfg, s, acts[0]);
      StepKeepsLimited(s, acts[0]);
      RunKeepsLimited(cfg, Next(s, acts[0]), acts[1..]);
    }
  }

  lemma {:induction false} WrittenAll(written: seq<Record>)
    ensures CountWritten(written, AnyTask) == |written|
  {
    if written != [] {
      WrittenAll(written[1..]);
    }
  }

  lemma LimitedAtEnd(cfg: Config, s: State)
    requires Inv(cfg, s) && Limited(s) && s.phase == Finished && cfg.computers >= 1
    ensures InFlight(s, AnyTask) == |s.wq| < cfg.computers
    ensures |s.log| == |s.written| + |s.wq|
  {
    assert s.compute[0] == Exited;
    ExitedHoldNothing(s.receivers, AnyTask);
    ExitedHoldNothing(s.compute, AnyTask);
    ExitedHoldNothing(s.writers, AnyTask);
    CountAll(s.wq);
    CountAll(s.log);
    WrittenAll(s.written);
    assert Balanced(s, AnyTask);
  }

  /** However the threads interleave, a complete run of any configuration leaves fewer chunks unwritten
      than there are compute workers; those are in the write queue. */
  lemma LossIsLimited(cfg: Config, acts: seq<Action>)
    requires cfg.computers >= 1 && cfg.writers >= 1 && Complete(cfg, acts)
    ensures var s := Exec(Init(cfg), acts);
            InFlight(s, AnyTask) == |s.wq| == |s.log| - |s.written| <= cfg.computers - 1
  {
    InitInv(cfg);
    assert Init(cfg).writers[0] == Ready;
    RunKeepsLimited(cfg, Init(cfg), acts);
    EveryRunKeepsInv(cfg, acts);
    LimitedAtEnd(cfg, Exec(Init(cfg), acts));
  }

  // -------------------------------------------------------------------------------------------
  // Every run can be completed
  // -------------------------------------------------------------------------------------------

  /** From wherever a run has got to, the program can still finish. */
  lemma {:induction false} CanFinish(cfg: Config, s: State) returns (acts: seq<Action>)
    requires Inv(cfg, s) && cfg.computers >= 1 && cfg.writers >= 1
    ensures IsRun(s, acts) && Exec(s, acts).phase == Finished
    decreases Work(s)
  {
    if s.phase == Finished {
      acts := [];
    } else {
      var a := SomeoneMoves(cfg, s, cfg.computers, 0);
      StepKeepsInv(cfg, s, a);
      StepLeavesLess(s, a);
      var rest := CanFinish(cfg, Next(s, a));
      RunCons(s, a, rest);
      acts := [a] + rest;
    }
  }
}
