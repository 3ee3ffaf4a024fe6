/**
 The order in which the block pipeline works (include/thread_pool.hh, src/memory_pool.cc): every queue is first
 in, first out in every run, and with one worker of each kind the chunks of a connection are written in the
 order of its input.
 */
module PipelineOrder {
  import opened Pipeline
  import opened PipelineRuns
  import opened PipelineDrain

  // -------------------------------------------------------------------------------------------
  // First in, first out
  // -------------------------------------------------------------------------------------------

  datatype Line = ToCompute | ToWrite

  function Queue(s: State, line: Line): seq<Task> {
    if line.ToCompute? then s.cq else s.wq
  }

  /** The task that a step puts into a queue: the one that the receiver or compute worker held. */
  function Joins(s: State, a: Action, line: Line): seq<Task>
    requires Enabled(s, a)
  {
    match a
    case Forward(i) =>
      var t := s.receivers[i].task;
      if (t.header.coefficient != 0) == line.ToCompute? then [t] else []
    case CPush(i) => if line.ToWrite? then [s.compute[i].task] else []
    case _ => []
  }

  /** The task that a step takes out of a queue: the one that the worker holds afterwards. */
  function Leaves(s: State, a: Action, line: Line): seq<Task>
    requires Enabled(s, a)
  {
    match a
    case CTake(i) => if line.ToCompute? then [Next(s, a).compute[i].task] else []
    case WTake(i) => if line.ToWrite? then [Next(s, a).writers[i].task] else []
    case _ => []
  }

  function AllJoin(s: State, acts: seq<Action>, line: Line): seq<Task>
    requires IsRun(s, acts)
    decreases |acts|
  {
    if acts == [] then [] else Joins(s, acts[0], line) + AllJoin(Next(s, acts[0]), acts[1..], line)
  }

  function AllLeave(s: State, acts: seq<Action>, line: Line): seq<Task>
    requires IsRun(s, acts)
    decreases |acts|
  {
    if acts == [] then [] else Leaves(s, acts[0], line) + AllLeave(Next(s, acts[0]), acts[1..], line)
  }

  lemma QueueStep(s: State, a: Action, line: Line)
    requires Enabled(s, a)
    ensures Queue(s, line) + Joins(s, a, line) == Leaves(s, a, line) + Queue(Next(s, a), line)
  {
  }

  lemma Regroup(a: seq<Task>, b: seq<Task>, c: seq<Task>, d: seq<Task>, e: seq<Task>, f: seq<Task>, g: seq<Task>)
    requires a + b == c + d && d + e == f + g
    ensures a + (b + e) == (c + f) + g
  {
    assert a + (b + e) == (a + b) + e;
    assert (c + d) + e == c + (d + e);
    assert c + (f + g) == (c + f) + g;
  }

  /** In every run, from every state: the tasks leave a queue in the order in which they join it. */
  lemma {:induction false} FirstInFirstOut(s: State, acts: seq<Action>, line: Line)
    requires IsRun(s, acts)
    ensures Queue(s, line) + AllJoin(s, acts, line) == AllLeave(s, acts, line) + Queue(Exec(s, acts), line)
    decreases |acts|
  {
    if acts != [] {
      var s' := Next(s, acts[0]);
      QueueStep(s, acts[0], line);
      FirstInFirstOut(s', acts[1..], line);
      Regroup(Queue(s, line), Joins(s, acts[0], line), Leaves(s, acts[0], line), Queue(s', line),
              AllJoin(s', acts[1..], line), AllLeave(s', acts[1..], line), Queue(Exec(s, acts), line));
    }
  }

  // -------------------------------------------------------------------------------------------
  // One worker of each kind
  // -------------------------------------------------------------------------------------------

  /** The coded, or the plain, chunks of a list. */
  function Chunks(hs: seq<Header>, coded: bool): seq<Header> {
    if hs == [] then []
    else
      Chunks(hs[..|hs| - 1], coded)
      + if (hs[|hs| - 1].coefficient != 0) == coded then [hs[|hs| - 1]] else []
  }

  function One(t: Task, i: nat, coded: bool): seq<Header> {
    if t.from == i && (t.header.coefficient != 0) == coded then [t.header] else []
  }

  /** The coded, or the plain, chunks of connection `i` among the tasks. */
  function ChunksOf(q: seq<Task>, i: nat, coded: bool): seq<Header> {
    if q == [] then [] else ChunksOf(q[..|q| - 1], i, coded) + One(q[|q| - 1], i, coded)
  }

  function Files(written: seq<Record>): seq<Task> {
    seq(|written|, k requires 0 <= k < |written| => written[k].task)
  }

  lemma ChunksOfPush(q: seq<Task>, t: Task, i: nat, coded: bool)
    ensures ChunksOf(q + [t], i, coded) == ChunksOf(q, i, coded) + One(t, i, coded)
  {
  }

  lemma {:induction false} ChunksOfPop(q: seq<Task>, i: nat, coded: bool)
    requires q != []
    ensures ChunksOf(q, i, coded) == One(q[0], i, coded) + ChunksOf(q[1..], i, coded)
  {
    var n := |q| - 1;
    if n > 0 {
      ChunksOfPop(q[..n], i, coded);
      assert q[..n][1..] == q[1..][..n - 1];
    }
  }

  lemma {:induction false} ChunksOfTaken(log: seq<Task>, i: nat, coded: bool)
    ensures ChunksOf(log, i, coded) == Chunks(TakenBy(log, i), coded)
  {
    if log != [] {
      var t := log[|log| - 1];
      ChunksOfTaken(log[..|log| - 1], i, coded);
      var before := TakenBy(log[..|log| - 1], i);
      if t.from == i {
        assert (before + [t.header])[..|before|] == before;
      } else {
        assert before + [] == before;
      }
    }
  }

  lemma {:induction false} NothingOf(q: seq<Task>, i: nat, coded: bool)
    requires forall k :: 0 <= k < |q| ==> q[k].from != i || (q[k].header.coefficient != 0) != coded
    ensures ChunksOf(q, i, coded) == []
  {
    if q != [] {
      NothingOf(q[..|q| - 1], i, coded);
    }
  }

  /** What a worker holds of the connection. */
  function HeldOf(w: Worker, i: nat, coded: bool): seq<Header> {
    if w.Busy? then One(w.task, i, coded) else []
  }

  ghost predicate OwnTasks(receivers: seq<Worker>) {
    forall j :: 0 <= j < |receivers| && receivers[j].Busy? ==> receivers[j].task.from == j
  }

  /** Files, write worker, write queue, compute worker, compute queue and receiver. */
  function Chain(a: seq<Header>, b: seq<Header>, c: seq<Header>, d: seq<Header>, e: seq<Header>, f: seq<Header>): seq<Header> {
    a + b + c + d + e + f
  }

  lemma MoveToReceiver(a: seq<Header>, b: seq<Header>, c: seq<Header>, d: seq<Header>, e: seq<Header>, x: seq<Header>)
    ensures Chain(a, b, c, d, e, x) == Chain(a, b, c, d, e, []) + x
  {
  }

  lemma MoveToCompute(a: seq<Header>, b: seq<Header>, c: seq<Header>, d: seq<Header>, e: seq<Header>, f: seq<Header>)
    ensures Chain(a, b, c, d, e + f, []) == Chain(a, b, c, d, e, f)
  {
    assert (a + b + c + d) + (e + f) == ((a + b + c + d) + e) + f;
  }

  lemma MovePastCompute(a: seq<Header>, b: seq<Header>, c: seq<Header>, f: seq<Header>)
    ensures Chain(a, b, c + f, [], [], []) == Chain(a, b, c, [], [], f)
  {
    assert (a + b) + (c + f) == ((a + b) + c) + f;
  }

  lemma MoveToComputer(a: seq<Header>, b: seq<Header>, c: seq<Header>, x: seq<Header>, e: seq<Header>, f: seq<Header>)
    ensures Chain(a, b, c, x, e, f) == Chain(a, b, c, [], x + e, f)
  {
    assert ((a + b + c) + x) + e == (a + b + c) + (x + e);
  }

  lemma MoveToWrite(a: seq<Header>, b: seq<Header>, c: seq<Header>, d: seq<Header>, e: seq<Header>, f: seq<Header>)
    ensures Chain(a, b, c + d, [], e, f) == Chain(a, b, c, d, e, f)
  {
    assert (a + b) + (c + d) == ((a + b) + c) + d;
  }

  lemma MoveToWriter(a: seq<Header>, x: seq<Header>, c: seq<Header>, d: seq<Header>, e: seq<Header>, f: seq<Header>)
    ensures Chain(a, x, c, d, e, f) == Chain(a, [], x + c, d, e, f)
  {
    assert (a + x) + c == a + (x + c);
  }

  lemma MoveToFile(a: seq<Header>, b: seq<Header>, c: seq<Header>, d: seq<Header>, e: seq<Header>, f: seq<Header>)
    ensures Chain(a + b, [], c, d, e, f) == Chain(a, b, c, d, e, f)
  {
  }

  /** The chunks of connection `i` from the files back to its receiver. */
  function Way(s: State, i: nat, coded: bool): seq<Header>
    requires |s.compute| == |s.writers| == 1 && i < |s.receivers|
  {
    Chain(ChunksOf(Files(s.written), i, coded), HeldOf(s.writers[0], i, coded), ChunksOf(s.wq, i, coded),
          HeldOf(s.compute[0], i, coded), ChunksOf(s.cq, i, coded), HeldOf(s.receivers[i], i, coded))
  }

  /** Only coded chunks are queued for computing. */
  ghost predicate CodedOnly(s: State)
    requires |s.compute| == 1
  {
    && (forall k :: 0 <= k < |s.cq| ==> s.cq[k].header.coefficient != 0)
    && (s.compute[0].Busy? ==> s.compute[0].task.header.coefficient != 0)
  }

  lemma BufferedCodedOnly(s: State)
    requires Buffered(s) && |s.compute| == 1
    ensures CodedOnly(s)
  {
    forall k | 0 <= k < |s.cq| ensures s.cq[k].header.coefficient != 0 {
      assert CellOk(s.mem, s.cq[k], true);
    }
    assert s.compute[0].Busy? ==> CellOk(s.mem, s.compute[0].task, true);
  }

  ghost predicate OneEach(s: State) {
    |s.compute| == |s.writers| == 1 && OwnTasks(s.receivers) && CodedOnly(s)
  }

  lemma AcceptOnWay(s: State, j: nat, i: nat, coded: bool)
    requires OneEach(s) && i < |s.receivers| && Enabled(s, Accept(j))
    ensures Way(Next(s, Accept(j)), i, coded) == Way(s, i, coded) + One(NewTask(s, j), i, coded)
  {
    MoveToReceiver(ChunksOf(Files(s.written), i, coded), HeldOf(s.writers[0], i, coded), ChunksOf(s.wq, i, coded),
                   HeldOf(s.compute[0], i, coded), ChunksOf(s.cq, i, coded), One(NewTask(s, j), i, coded));
  }

  lemma ForwardCodedOnWay(s: State, j: nat, i: nat, coded: bool)
    requires OneEach(s) && i < |s.receivers| && Enabled(s, Forward(j))
    requires s.receivers[j].task.header.coefficient != 0
    ensures Way(Next(s, Forward(j)), i, coded) == Way(s, i, coded)
  {
    var t := s.receivers[j].task;
    ChunksOfPush(s.cq, t, i, coded);
    MoveToCompute(ChunksOf(Files(s.written), i, coded), HeldOf(s.writers[0], i, coded), ChunksOf(s.wq, i, coded),
                  HeldOf(s.compute[0], i, coded), ChunksOf(s.cq, i, coded), One(t, i, coded));
  }

  /** A plain chunk of another connection, or where coded ones are looked at. */
  lemma ForwardOtherOnWay(s: State, j: nat, i: nat, coded: bool)
    requires OneEach(s) && i < |s.receivers| && Enabled(s, Forward(j)) && s.receivers[j].task.header.coefficient == 0
    requires coded || i != j
    ensures Way(Next(s, Forward(j)), i, coded) == Way(s, i, coded)
  {
    var t, s' := s.receivers[j].task, Next(s, Forward(j));
    ChunksOfPush(s.wq, t, i, coded);
    assert One(t, i, coded) == [];
    assert ChunksOf(s'.wq, i, coded) == ChunksOf(s.wq, i, coded);
  }

  lemma ForwardPlainOnWay(s: State, i: nat)
    requires OneEach(s) && i < |s.receivers| && Enabled(s, Forward(i)) && s.receivers[i].task.header.coefficient == 0
    ensures Way(Next(s, Forward(i)), i, false) == Way(s, i, false)
  {
    var t := s.receivers[i].task;
    ChunksOfPush(s.wq, t, i, false);
    NothingOf(s.cq, i, false);
    MovePastCompute(ChunksOf(Files(s.written), i, false), HeldOf(s.writers[0], i, false), ChunksOf(s.wq, i, false),
                    One(t, i, false));
  }

  lemma ComputeTakeOnWay(s: State, i: nat, coded: bool)
    requires OneEach(s) && i < |s.receivers| && Enabled(s, CTake(0))
    ensures Way(Next(s, CTake(0)), i, coded) == Way(s, i, coded)
  {
    ChunksOfPop(s.cq, i, coded);
    MoveToComputer(ChunksOf(Files(s.written), i, coded), HeldOf(s.writers[0], i, coded), ChunksOf(s.wq, i, coded),
                   One(s.cq[0], i, coded), ChunksOf(s.cq[1..], i, coded), HeldOf(s.receivers[i], i, coded));
  }

  lemma ComputePushOnWay(s: State, i: nat, coded: bool)
    requires OneEach(s) && i < |s.receivers| && Enabled(s, CPush(0))
    ensures Way(Next(s, CPush(0)), i, coded) == Way(s, i, coded)
  {
    var t := s.compute[0].task;
    ChunksOfPush(s.wq, t, i, coded);
    MoveToWrite(ChunksOf(Files(s.written), i, coded), HeldOf(s.writers[0], i, coded), ChunksOf(s.wq, i, coded),
                One(t, i, coded), ChunksOf(s.cq, i, coded), HeldOf(s.receivers[i], i, coded));
  }

  lemma WriteTakeOnWay(s: State, i: nat, coded: bool)
    requires OneEach(s) && i < |s.receivers| && Enabled(s, WTake(0))
    ensures Way(Next(s, WTake(0)), i, coded) == Way(s, i, coded)
  {
    ChunksOfPop(s.wq, i, coded);
    MoveToWriter(ChunksOf(Files(s.written), i, coded), One(s.wq[0], i, coded), ChunksOf(s.wq[1..], i, coded),
                 HeldOf(s.compute[0], i, coded), ChunksOf(s.cq, i, coded), HeldOf(s.receivers[i], i, coded));
  }

  lemma WriteDoneOnWay(s: State, i: nat, coded: bool)
    requires OneEach(s) && i < |s.receivers| && Enabled(s, WDone(0))
    ensures Way(Next(s, WDone(0)), i, coded) == Way(s, i, coded)
  {
    var t := s.writers[0].task;
    FilesPush(s.written, Record(t, s.mem[t.block]));
    ChunksOfPush(Files(s.written), t, i, coded);
    MoveToFile(ChunksOf(Files(s.written), i, coded), One(t, i, coded), ChunksOf(s.wq, i, coded),
               HeldOf(s.compute[0], i, coded), ChunksOf(s.cq, i, coded), HeldOf(s.receivers[i], i, coded));
  }

  lemma FilesPush(written: seq<Record>, r: Record)
    ensures Files(written + [r]) == Files(written) + [r.task]
  {
  }

  lemma QuitOnWay(s: State, a: Action, i: nat, coded: bool)
    requires OneEach(s) && i < |s.receivers| && Enabled(s, a)
    requires !a.Accept? && !a.Forward? && !a.CTake? && !a.CPush? && !a.WTake? && !a.WDone?
    ensures |Next(s, a).compute| == |Next(s, a).writers| == 1 && i < |Next(s, a).receivers|
    ensures Way(Next(s, a), i, coded) == Way(s, i, coded)
  {
  }

  lemma ReceiverOnWay(s: State, a: Action, i: nat, coded: bool)
    requires OneEach(s) && i < |s.receivers| && Enabled(s, a) && (a.Accept? || a.Forward?)
    ensures |Next(s, a).compute| == |Next(s, a).writers| == 1 && i < |Next(s, a).receivers|
    ensures Way(Next(s, a), i, coded) == Way(s, i, coded) + if a.Accept? then One(NewTask(s, a.i), i, coded) else []
  {
    if a.Accept? {
      AcceptOnWay(s, a.i, i, coded);
    } else if s.receivers[a.i].task.header.coefficient != 0 {
      ForwardCodedOnWay(s, a.i, i, coded);
    } else if coded || i != a.i {
      ForwardOtherOnWay(s, a.i, i, coded);
    } else {
      ForwardPlainOnWay(s, i);
    }
  }

  lemma WorkerOnWay(s: State, a: Action, i: nat, coded: bool)
    requires OneEach(s) && i < |s.receivers| && Enabled(s, a) && (a.CTake? || a.CPush? || a.WTake? || a.WDone?)
    ensures |Next(s, a).compute| == |Next(s, a).writers| == 1 && i < |Next(s, a).receivers|
    ensures Way(Next(s, a), i, coded) == Way(s, i, coded)
  {
    if a.CTake? {
      ComputeTakeOnWay(s, i, coded);
    } else if a.CPush? {
      ComputePushOnWay(s, i, coded);
    } else if a.WTake? {
      WriteTakeOnWay(s, i, coded);
    } else {
      WriteDoneOnWay(s, i, coded);
    }
  }

  /** What is on the way of a connection keeps its order in every step. */
  lemma StepOnWay(s: State, a: Action, i: nat, coded: bool)
    requires OneEach(s) && i < |s.receivers| && Enabled(s, a)
    ensures |Next(s, a).compute| == |Next(s, a).writers| == 1 && i < |Next(s, a).receivers|
    ensures Way(Next(s, a), i, coded) == Way(s, i, coded) + if a.Accept? then One(NewTask(s, a.i), i, coded) else []
  {
    if a.Accept? || a.Forward? {
      ReceiverOnWay(s, a, i, coded);
    } else if a.CTake? || a.CPush? || a.WTake? || a.WDone? {
      WorkerOnWay(s, a, i, coded);
    } else {
      QuitOnWay(s, a, i, coded);
    }
  }

  lemma StepKeepsOneEach(s: State, a: Action)
    requires OneEach(s) && Enabled(s, a) && Buffered(Next(s, a))
    ensures OneEach(Next(s, a))
  {
    StepKeepsOwnTasks(s, a);
    assert |Next(s, a).compute| == 1;
    BufferedCodedOnly(Next(s, a));
  }

  lemma StepKeepsOwnTasks(s: State, a: Action)
    requires OwnTasks(s.receivers) && Enabled(s, a)
    ensures OwnTasks(Next(s, a).receivers)
  {
  }

  /** The chunks of connection `i` on the way are those received, in order. */
  ghost predicate InLine(s: State, i: nat, coded: bool) {
    OneEach(s) && i < |s.receivers| && Way(s, i, coded) == ChunksOf(s.log, i, coded)
  }

  lemma StepInLine(s: State, a: Action, i: nat, coded: bool)
    requires InLine(s, i, coded) && Enabled(s, a) && OneEach(Next(s, a))
    ensures InLine(Next(s, a), i, coded)
  {
    StepOnWay(s, a, i, coded);
    LogStep(s, a, i, coded);
  }

  lemma LogStep(s: State, a: Action, i: nat, coded: bool)
    requires Enabled(s, a)
    ensures ChunksOf(Next(s, a).log, i, coded)
         == ChunksOf(s.log, i, coded) + if a.Accept? then One(NewTask(s, a.i), i, coded) else []
  {
    if a.Accept? {
      ChunksOfPush(s.log, NewTask(s, a.i), i, coded);
    }
  }

  lemma {:induction false} RunInLine(cfg: Config, s: State, acts: seq<Action>, i: nat, coded: bool)
    requires Inv(cfg, s) && InLine(s, i, coded) && IsRun(s, acts)
    ensures InLine(Exec(s, acts), i, coded)
    decreases |acts|
  {
    if acts != [] {
      StepKeepsInv(cfg, s, acts[0]);
      StepKeepsOneEach(s, acts[0]);
      StepInLine(s, acts[0], i, coded);
      RunInLine(cfg, Next(s, acts[0]), acts[1..], i, coded);
    }
  }

  lemma InitInLine(cfg: Config, i: nat, coded: bool)
    requires cfg.computers == 1 && cfg.writers == 1 && i < |cfg.inputs|
    ensures InLine(Init(cfg), i, coded)
  {
  }

  /** The front of the way has been written. */
  lemma FilesFirst(s: State, i: nat, coded: bool)
    requires InLine(s, i, coded)
    ensures ChunksOf(Files(s.written), i, coded) <= ChunksOf(s.log, i, coded)
  {
  }

  /** With one worker of each kind, in every run: the coded chunks of a connection that have been written are the
      first coded chunks it has sent, in this order, and so are its plain ones. */
  lemma WrittenInOrder(cfg: Config, acts: seq<Action>, i: nat, coded: bool)
    requires cfg.computers == 1 && cfg.writers == 1 && i < |cfg.inputs| && IsRun(Init(cfg), acts)
    ensures var s := Exec(Init(cfg), acts);
            && ChunksOf(Files(s.written), i, coded) <= Chunks(TakenBy(s.log, i), coded)
            && TakenBy(s.log, i) <= cfg.inputs[i]
  {
    InitInv(cfg);
    InitInLine(cfg, i, coded);
    RunInLine(cfg, Init(cfg), acts, i, coded);
    FilesFirst(Exec(Init(cfg), acts), i, coded);
    ChunksOfTaken(Exec(Init(cfg), acts).log, i, coded);
    TakenIsPrefix(cfg, acts, i);
  }

  // -------------------------------------------------------------------------------------------
  // What the files are
  // -------------------------------------------------------------------------------------------

  /** In every run, every file holds the chunk its task was made for, encoded once if it has a coefficient and
      else as it came. */
  lemma FileIsChunk(cfg: Config, acts: seq<Action>, k: nat)
    requires IsRun(Init(cfg), acts) && k < |Exec(Init(cfg), acts).written|
    ensures var r := Exec(Init(cfg), acts).written[k];
            && r.content.header == r.task.header
            && r.content.encoded == if r.task.header.coefficient == 0 then 0 else 1
  {
    EveryRunKeepsInv(cfg, acts);
  }

  lemma {:induction false} CountIsMultiplicity(q: seq<Task>, t: Task)
    ensures CountQueue(q, Exactly(t)) == multiset(q)[t]
  {
    if q != [] {
      CountIsMultiplicity(q[1..], t);
      assert q == [q[0]] + q[1..];
    }
  }

  lemma {:induction false} WrittenIsMultiplicity(written: seq<Record>, t: Task)
    ensures CountWritten(written, Exactly(t)) == multiset(Files(written))[t]
  {
    if written != [] {
      WrittenIsMultiplicity(written[1..], t);
      assert Files(written) == [written[0].task] + Files(written[1..]);
    }
  }

  /** In every run, the tasks made are those written and those still on their way, each as often. */
  lemma MadeIsWrittenOrUnderway(cfg: Config, acts: seq<Action>)
    requires IsRun(Init(cfg), acts)
    ensures var s := Exec(Init(cfg), acts); multiset(s.log) == multiset(Files(s.written)) + multiset(Tasks(s))
  {
    EveryRunKeepsInv(cfg, acts);
    var s := Exec(Init(cfg), acts);
    forall t: Task
      ensures multiset(s.log)[t] == (multiset(Files(s.written)) + multiset(Tasks(s)))[t]
    {
      assert Balanced(s, Exactly(t));
      TasksCount(s, Exactly(t));
      CountIsMultiplicity(s.log, t);
      CountIsMultiplicity(Tasks(s), t);
      WrittenIsMultiplicity(s.written, t);
    }
  }

  lemma DrainedFiles(cfg: Config, s: State)
    requires Drained(cfg, s)
    ensures multiset(Files(s.written)) == multiset(s.log)
  {
    forall t: Task ensures multiset(Files(s.written))[t] == multiset(s.log)[t] {
      CountIsMultiplicity(s.log, t);
      WrittenIsMultiplicity(s.written, t);
    }
  }

  lemma NothingMore(log: seq<Task>, files: seq<Task>, tasks: seq<Task>)
    requires multiset(log) == multiset(files) + multiset(tasks) && multiset(files) == multiset(log)
    ensures tasks == []
  {
    assert |multiset(log)| == |multiset(files)| + |multiset(tasks)|;
  }

  /** With one compute worker, or if no chunk before a shutdown signal has a coefficient, a complete run writes
      every task that was made exactly once, and all of the two blocks per connection are free again. */
  lemma EveryTaskIsWritten(cfg: Config, acts: seq<Action>)
    requires cfg.computers >= 1 && cfg.writers >= 1 && Complete(cfg, acts)
    requires cfg.computers == 1 || NothingToEncode(cfg)
    ensures var s := Exec(Init(cfg), acts);
            multiset(Files(s.written)) == multiset(s.log) && |s.free| == 2 * |cfg.inputs|
  {
    CompleteRunsDrain(cfg, acts);
    EveryRunKeepsInv(cfg, acts);
    var s := Exec(Init(cfg), acts);
    DrainedFiles(cfg, s);
    MadeIsWrittenOrUnderway(cfg, acts);
    NothingMore(s.log, Files(s.written), Tasks(s));
    TasksCount(s, AnyTask);
  }
}
