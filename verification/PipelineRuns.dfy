/**
 What every run of the block pipeline keeps, and where every run ends.
 */
module PipelineRuns {
  import opened Pipeline

  // -------------------------------------------------------------------------------------------
  // Buffers
  // -------------------------------------------------------------------------------------------

  /** Chunks with a coefficient are encoded once. */
  function Encodings(h: Header): nat {
    if h.coefficient != 0 then 1 else 0
  }

  /** A task's block holds the task's own chunk: raw before the compute step, done after it. */
  ghost predicate CellOk(mem: seq<Content>, t: Task, toCompute: bool) {
    && t.block < |mem|
    && if toCompute then t.header.coefficient != 0 && mem[t.block] == Content(t.header, 0)
       else mem[t.block] == Content(t.header, Encodings(t.header))
  }

  ghost predicate QueueCells(mem: seq<Content>, q: seq<Task>, toCompute: bool) {
    forall k :: 0 <= k < |q| ==> CellOk(mem, q[k], toCompute)
  }

  ghost predicate HeldCells(mem: seq<Content>, ws: seq<Worker>, toCompute: bool) {
    forall i :: 0 <= i < |ws| && ws[i].Busy? ==> CellOk(mem, ws[i].task, toCompute)
  }

  ghost predicate RecordsOk(written: seq<Record>) {
    forall k :: 0 <= k < |written| ==>
      written[k].content == Content(written[k].task.header, Encodings(written[k].task.header))
  }

  ghost predicate Buffered(s: State) {
    && QueueCells(s.mem, s.cq, true) && HeldCells(s.mem, s.compute, true)
    && QueueCells(s.mem, s.wq, false) && HeldCells(s.mem, s.writers, false)
    && RecordsOk(s.written)
  }

  lemma NotQueued(mem: seq<Content>, q: seq<Task>, toCompute: bool, b: nat, x: Content)
    requires QueueCells(mem, q, toCompute) && CountQueue(q, OnBlock(b)) == 0 && b < |mem|
    ensures QueueCells(mem[b := x], q, toCompute)
  {
    forall k | 0 <= k < |q| ensures CellOk(mem[b := x], q[k], toCompute) {
      QueueMember(q, k, OnBlock(b));
      assert CellOk(mem, q[k], toCompute);
    }
  }

  lemma NotHeld(mem: seq<Content>, ws: seq<Worker>, toCompute: bool, b: nat, x: Content)
    requires HeldCells(mem, ws, toCompute) && CountHeld(ws, OnBlock(b)) == 0 && b < |mem|
    ensures HeldCells(mem[b := x], ws, toCompute)
  {
    forall i | 0 <= i < |ws| && ws[i].Busy? ensures CellOk(mem[b := x], ws[i].task, toCompute) {
      HeldMember(ws, i, OnBlock(b));
      assert CellOk(mem, ws[i].task, toCompute);
    }
  }

  lemma QueueCellsPush(mem: seq<Content>, q: seq<Task>, t: Task, toCompute: bool)
    requires QueueCells(mem, q, toCompute) && CellOk(mem, t, toCompute)
    ensures QueueCells(mem, q + [t], toCompute)
  {
  }

  /** A receiver fills its own block and nobody else's. */
  lemma ForwardKeepsBuffered(cfg: Config, s: State, i: nat)
    requires Owned(cfg, s) && Buffered(s) && Enabled(s, Forward(i))
    ensures Buffered(Next(s, Forward(i)))
  {
    var t := s.receivers[i].task;
    var b, x := t.block, Content(t.header, 0);
    HeldMember(s.receivers, i, OnBlock(b));
    assert Places(s, b) <= 1;
    NotQueued(s.mem, s.cq, true, b, x);
    NotQueued(s.mem, s.wq, false, b, x);
    NotHeld(s.mem, s.compute, true, b, x);
    NotHeld(s.mem, s.writers, false, b, x);
    var mem := s.mem[b := x];
    if t.header.coefficient != 0 {
      QueueCellsPush(mem, s.cq, t, true);
    } else {
      QueueCellsPush(mem, s.wq, t, false);
    }
  }

  /** A compute worker encodes its own block and nobody else's. */
  lemma PushKeepsBuffered(cfg: Config, s: State, i: nat)
    requires Owned(cfg, s) && Buffered(s) && Enabled(s, CPush(i))
    ensures Buffered(Next(s, CPush(i)))
  {
    var t := s.compute[i].task;
    var b := t.block;
    assert CellOk(s.mem, t, true);
    var x := Content(t.header, 1);
    HeldMember(s.compute, i, OnBlock(b));
    assert Places(s, b) <= 1;
    HeldUpdate(s.compute, i, Ready, OnBlock(b));
    ReadyKeepsCells(s.mem, s.compute, i);
    NotQueued(s.mem, s.cq, true, b, x);
    NotQueued(s.mem, s.wq, false, b, x);
    NotHeld(s.mem, s.compute[i := Ready], true, b, x);
    NotHeld(s.mem, s.writers, false, b, x);
    QueueCellsPush(s.mem[b := x], s.wq, t, false);
  }

  lemma ReadyKeepsCells(mem: seq<Content>, ws: seq<Worker>, i: nat)
    requires i < |ws| && HeldCells(mem, ws, true)
    ensures HeldCells(mem, ws[i := Ready], true)
  {
  }

  lemma TakeKeepsBuffered(s: State, a: Action)
    requires Buffered(s) && Enabled(s, a) && (a.CTake? || a.WTake?)
    ensures Buffered(Next(s, a))
  {
  }

  lemma DoneKeepsBuffered(s: State, i: nat)
    requires Buffered(s) && Enabled(s, WDone(i))
    ensures Buffered(Next(s, WDone(i)))
  {
    assert CellOk(s.mem, s.writers[i].task, false);
  }

  lemma StepKeepsBuffered(cfg: Config, s: State, a: Action)
    requires Owned(cfg, s) && Buffered(s) && Enabled(s, a)
    ensures Buffered(Next(s, a))
  {
    if a.Forward? {
      ForwardKeepsBuffered(cfg, s, a.i);
    } else if a.CPush? {
      PushKeepsBuffered(cfg, s, a.i);
    } else if a.CTake? || a.WTake? {
      TakeKeepsBuffered(s, a);
    } else if a.WDone? {
      DoneKeepsBuffered(s, a.i);
    }
  }

  // -------------------------------------------------------------------------------------------
  // The order of the shutdown
  // -------------------------------------------------------------------------------------------

  predicate Idle(w: Worker) {
    w == Ready || w.Busy?
  }

  predicate Sealed(p: Phase) {
    p == WaitingCompute || p == WaitingWrite || p == Finished
  }

  /** Who may have left, by how far the main thread has come. */
  ghost predicate Ordered(s: State) {
    && (s.phase != Joining ==> AllExited(s.receivers))
    && (s.cSealed <==> Sealed(s.phase))
    && (forall i :: 0 <= i < |s.receivers| ==> s.receivers[i] != Leaving)
    && (forall i :: 0 <= i < |s.compute| && !Idle(s.compute[i]) ==> s.cSealed && s.cq == [])
    && (s.wSealed ==> s.cSealed && s.cq == [])
    && (forall i :: 0 <= i < |s.compute| && s.compute[i] == Exited ==> s.wSealed)
    && (forall i :: 0 <= i < |s.writers| ==> s.writers[i] != Leaving)
    && (forall i :: 0 <= i < |s.writers| && s.writers[i] == Exited ==> s.wSealed)
    && (s.phase == WaitingWrite || s.phase == Finished ==> AllExited(s.compute))
    && (s.phase == Finished ==> AllExited(s.writers))
  }

  lemma ReceiverKeepsOrdered(s: State, a: Action)
    requires Ordered(s) && Enabled(s, a) && (a.Accept? || a.Forward? || a.HangUp?)
    ensures Ordered(Next(s, a))
  {
  }

  lemma ComputerKeepsOrdered(s: State, a: Action)
    requires Ordered(s) && Enabled(s, a) && (a.CTake? || a.CPush? || a.CQuit? || a.CSeal?)
    ensures Ordered(Next(s, a))
  {
  }

  lemma StepKeepsOrdered(s: State, a: Action)
    requires Ordered(s) && Enabled(s, a)
    ensures Ordered(Next(s, a))
  {
    if a.Accept? || a.Forward? || a.HangUp? {
      ReceiverKeepsOrdered(s, a);
    } else if a.CTake? || a.CPush? || a.CQuit? || a.CSeal? {
      ComputerKeepsOrdered(s, a);
    }
  }

  // -------------------------------------------------------------------------------------------
  // Every run
  // -------------------------------------------------------------------------------------------

  ghost predicate Inv(cfg: Config, s: State) {
    && Shaped(cfg, s) && Owned(cfg, s) && Accounted(s) && Received(cfg, s) && Buffered(s) && Ordered(s)
  }

  lemma StepKeepsInv(cfg: Config, s: State, a: Action)
    requires Inv(cfg, s) && Enabled(s, a)
    ensures Inv(cfg, Next(s, a))
  {
    StepKeepsReceived(cfg, s, a);
    StepKeepsOwned(cfg, s, a);
    StepKeepsAccounted(s, a);
    StepKeepsBuffered(cfg, s, a);
    StepKeepsOrdered(s, a);
  }

  lemma {:induction false} NobodyHolds(n: nat, sel: Selector)
    ensures CountHeld(seq(n, _ => Ready), sel) == 0
  {
    if n > 0 {
      NobodyHolds(n - 1, sel);
      assert seq(n, _ => Ready)[1..] == seq(n - 1, _ => Ready);
    }
  }

  lemma {:induction false} FreshBlocks(lo: nat, n: nat, b: nat)
    ensures CountFree(UpFrom(lo, n), b) == if lo <= b < lo + n then 1 else 0
    decreases n
  {
    if n > 0 {
      FreshBlocks(lo + 1, n - 1, b);
    }
  }

  lemma InitOwned(cfg: Config)
    ensures Owned(cfg, Init(cfg))
  {
    var s := Init(cfg);
    forall b: nat ensures Places(s, b) == if b < Blocks(cfg) then 1 else 0 {
      InitInFlight(cfg, OnBlock(b));
      FreshBlocks(0, Blocks(cfg), b);
    }
    InitInFlight(cfg, AnyTask);
  }

  lemma InitInFlight(cfg: Config, sel: Selector)
    ensures InFlight(Init(cfg), sel) == 0
  {
    NobodyHolds(|cfg.inputs|, sel);
    NobodyHolds(cfg.computers, sel);
    NobodyHolds(cfg.writers, sel);
  }

  lemma InitInv(cfg: Config)
    ensures Inv(cfg, Init(cfg))
  {
    InitOwned(cfg);
    forall sel: Selector ensures Balanced(Init(cfg), sel) {
      InitInFlight(cfg, sel);
    }
  }

  lemma {:induction false} RunKeepsInv(cfg: Config, s: State, acts: seq<Action>)
    requires Inv(cfg, s) && IsRun(s, acts)
    ensures Inv(cfg, Exec(s, acts))
    decreases |acts|
  {
    if acts != [] {
      StepKeepsInv(cfg, s, acts[0]);
      RunKeepsInv(cfg, Next(s, acts[0]), acts[1..]);
    }
  }

  /** In every state that any run of any configuration reaches, each memory block is in exactly one
      place, every accepted chunk is in flight or written exactly once, and every block on its way to a
      file holds the right chunk, encoded the right number of times. */
  lemma EveryRunKeepsInv(cfg: Config, acts: seq<Action>)
    requires IsRun(Init(cfg), acts)
    ensures Inv(cfg, Exec(Init(cfg), acts))
  {
    InitInv(cfg);
    RunKeepsInv(cfg, Init(cfg), acts);
  }

  lemma RunCons(s: State, a: Action, rest: seq<Action>)
    requires Enabled(s, a) && IsRun(Next(s, a), rest)
    ensures IsRun(s, [a] + rest) && Exec(s, [a] + rest) == Exec(Next(s, a), rest)
  {
    assert ([a] + rest)[1..] == rest;
  }

  lemma {:induction false} RunAppend(s: State, acts: seq<Action>, more: seq<Action>)
    requires IsRun(s, acts) && IsRun(Exec(s, acts), more)
    ensures IsRun(s, acts + more) && Exec(s, acts + more) == Exec(Exec(s, acts), more)
    decreases |acts|
  {
    if acts == [] {
      assert acts + more == more;
    } else {
      RunAppend(Next(s, acts[0]), acts[1..], more);
      RunCons(s, acts[0], acts[1..] + more);
      HeadFirst(acts, more);
    }
  }

  lemma HeadFirst(acts: seq<Action>, more: seq<Action>)
    requires acts != []
    ensures [acts[0]] + (acts[1..] + more) == acts + more
  {
  }

  // -------------------------------------------------------------------------------------------
  // No two tasks share a buffer
  // -------------------------------------------------------------------------------------------

  function HeldTasks(ws: seq<Worker>): seq<Task> {
    if ws == [] then [] else (if ws[0].Busy? then [ws[0].task] else []) + HeldTasks(ws[1..])
  }

  /** All tasks, wherever they are. */
  function Tasks(s: State): seq<Task> {
    HeldTasks(s.receivers) + (s.cq + (HeldTasks(s.compute) + (s.wq + HeldTasks(s.writers))))
  }

  lemma {:induction false} QueueConcat(p: seq<Task>, q: seq<Task>, sel: Selector)
    ensures CountQueue(p + q, sel) == CountQueue(p, sel) + CountQueue(q, sel)
  {
    if p == [] {
      assert p + q == q;
    } else {
      QueueConcat(p[1..], q, sel);
      assert (p + q)[1..] == p[1..] + q;
    }
  }

  lemma {:induction false} HeldTasksCount(ws: seq<Worker>, sel: Selector)
    ensures CountQueue(HeldTasks(ws), sel) == CountHeld(ws, sel)
  {
    if ws != [] {
      HeldTasksCount(ws[1..], sel);
      if ws[0].Busy? {
        assert ([ws[0].task] + HeldTasks(ws[1..]))[1..] == HeldTasks(ws[1..]);
      } else {
        assert [] + HeldTasks(ws[1..]) == HeldTasks(ws[1..]);
      }
    }
  }

  lemma TasksCount(s: State, sel: Selector)
    ensures CountQueue(Tasks(s), sel) == InFlight(s, sel)
  {
    var c, w := HeldTasks(s.compute), HeldTasks(s.writers);
    HeldTasksCount(s.receivers, sel);
    HeldTasksCount(s.compute, sel);
    HeldTasksCount(s.writers, sel);
    QueueConcat(HeldTasks(s.receivers), s.cq + (c + (s.wq + w)), sel);
    QueueConcat(s.cq, c + (s.wq + w), sel);
    QueueConcat(c, s.wq + w, sel);
    QueueConcat(s.wq, w, sel);
  }

  lemma {:induction false} QueueTwice(q: seq<Task>, i: nat, j: nat, sel: Selector)
    requires i < j < |q|
    ensures CountQueue(q, sel) >= Hit(sel, q[i]) + Hit(sel, q[j])
  {
    if i > 0 {
      QueueTwice(q[1..], i - 1, j - 1, sel);
    } else {
      QueueMember(q[1..], j - 1, sel);
    }
  }

  lemma {:induction false} FreeMember(free: seq<nat>, k: nat)
    requires k < |free|
    ensures CountFree(free, free[k]) >= 1
  {
    if k > 0 {
      FreeMember(free[1..], k - 1);
    }
  }

  lemma {:induction false} CountAll(q: seq<Task>)
    ensures CountQueue(q, AnyTask) == |q|
  {
    if q != [] {
      CountAll(q[1..]);
    }
  }

  /** In every state that any run reaches: two tasks never have the same memory block, a task's block is
      not free, and free blocks and tasks are as many as the pool has blocks. */
  lemma NoSharedBuffer(cfg: Config, acts: seq<Action>, i: nat, j: nat)
    requires IsRun(Init(cfg), acts) && i < j < |Tasks(Exec(Init(cfg), acts))|
    ensures var s := Exec(Init(cfg), acts);
            && Tasks(s)[i].block != Tasks(s)[j].block
            && Tasks(s)[i].block !in s.free && Tasks(s)[j].block !in s.free
            && |s.free| + |Tasks(s)| == Blocks(cfg)
  {
    EveryRunKeepsInv(cfg, acts);
    var s := Exec(Init(cfg), acts);
    OneBufferEach(cfg, s, i, j);
    TasksCount(s, AnyTask);
    CountAll(Tasks(s));
  }

  lemma OneBufferEach(cfg: Config, s: State, i: nat, j: nat)
    requires Owned(cfg, s) && i < j < |Tasks(s)|
    ensures Tasks(s)[i].block != Tasks(s)[j].block
    ensures Tasks(s)[i].block !in s.free && Tasks(s)[j].block !in s.free
  {
    var b, b' := Tasks(s)[i].block, Tasks(s)[j].block;
    TasksCount(s, OnBlock(b));
    TasksCount(s, OnBlock(b'));
    QueueTwice(Tasks(s), i, j, OnBlock(b));
    QueueMember(Tasks(s), j, OnBlock(b'));
    assert Places(s, b) <= 1 && Places(s, b') <= 1;
    forall k | 0 <= k < |s.free| ensures s.free[k] != b && s.free[k] != b' {
      FreeMember(s.free, k);
    }
  }

  // -------------------------------------------------------------------------------------------
  // What counts as a chunk
  // -------------------------------------------------------------------------------------------

  lemma {:induction false} DeliverableIsPrefix(inbox: seq<Header>)
    ensures Deliverable(inbox) <= inbox
    ensures |Deliverable(inbox)| == |inbox|
         || inbox[|Deliverable(inbox)|].source == inbox[|Deliverable(inbox)|].target
  {
    if !Stops(inbox) {
      DeliverableIsPrefix(inbox[1..]);
      assert inbox == [inbox[0]] + inbox[1..];
    }
  }

  ghost predicate NoSignals(log: seq<Task>) {
    forall k :: 0 <= k < |log| ==> log[k].header.source != log[k].header.target
  }

  lemma {:induction false} RunKeepsNoSignals(s: State, acts: seq<Action>)
    requires IsRun(s, acts) && NoSignals(s.log)
    ensures NoSignals(Exec(s, acts).log)
    decreases |acts|
  {
    if acts != [] {
      RunKeepsNoSignals(Next(s, acts[0]), acts[1..]);
    }
  }

  /** In every run, a header with equal ends never becomes a task, and what a receiver has taken is the
      beginning of its input. */
  lemma TakenIsPrefix(cfg: Config, acts: seq<Action>, i: nat)
    requires IsRun(Init(cfg), acts) && i < |cfg.inputs|
    ensures var s := Exec(Init(cfg), acts);
            && TakenBy(s.log, i) <= cfg.inputs[i]
            && (forall k :: 0 <= k < |s.log| ==> s.log[k].header.source != s.log[k].header.target)
  {
    EveryRunKeepsInv(cfg, acts);
    RunKeepsNoSignals(Init(cfg), acts);
    var s := Exec(Init(cfg), acts);
    assert Share(s.log, s.receivers[i], s.inbox[i], i) == Deliverable(cfg.inputs[i]);
    assert TakenBy(s.log, i) <= Deliverable(cfg.inputs[i]);
    DeliverableIsPrefix(cfg.inputs[i]);
  }

  /** Once the receivers have been joined, each has taken all of its input, or all up to the first header with
      equal ends. */
  lemma TakenUpToSignal(cfg: Config, acts: seq<Action>, i: nat)
    requires IsRun(Init(cfg), acts) && i < |cfg.inputs| && Exec(Init(cfg), acts).phase != Joining
    ensures var taken := TakenBy(Exec(Init(cfg), acts).log, i);
            && taken <= cfg.inputs[i]
            && (|taken| == |cfg.inputs[i]| || cfg.inputs[i][|taken|].source == cfg.inputs[i][|taken|].target)
            && (forall k :: 0 <= k < |taken| ==> cfg.inputs[i][k].source != cfg.inputs[i][k].target)
  {
    EveryRunKeepsInv(cfg, acts);
    var s := Exec(Init(cfg), acts);
    assert s.receivers[i] == Exited;
    assert Share(s.log, s.receivers[i], s.inbox[i], i) == Deliverable(cfg.inputs[i]);
    assert TakenBy(s.log, i) + [] == TakenBy(s.log, i);
    DeliverableIsPrefix(cfg.inputs[i]);
    NoSignalBefore(cfg.inputs[i]);
  }

  lemma {:induction false} NoSignalBefore(inbox: seq<Header>)
    ensures forall k :: 0 <= k < |Deliverable(inbox)| ==>
              Deliverable(inbox)[k].source != Deliverable(inbox)[k].target
  {
    if !Stops(inbox) {
      NoSignalBefore(inbox[1..]);
    }
  }

  // -------------------------------------------------------------------------------------------
  // Every run ends
  // -------------------------------------------------------------------------------------------

  function ReceiverWork(w: Worker, inbox: seq<Header>): nat {
    match w
    case Ready => 1 + 7 * |inbox|
    case Busy(_) => 7 + 7 * |inbox|
    case Leaving => 0
    case Exited => 0
  }

  function ComputeWork(w: Worker): nat {
    match w
    case Ready => 2
    case Busy(_) => 6
    case Leaving => 1
    case Exited => 0
  }

  function WriterWork(w: Worker): nat {
    match w
    case Ready => 1
    case Busy(_) => 3
    case Leaving => 0
    case Exited => 0
  }

  function PhaseWork(p: Phase): nat {
    match p
    case Joining => 4
    case Sealing => 3
    case WaitingCompute => 2
    case WaitingWrite => 1
    case Finished => 0
  }

  function ReceiversWork(ws: seq<Worker>, inbox: seq<seq<Header>>): nat
    requires |ws| == |inbox|
  {
    if ws == [] then 0 else ReceiverWork(ws[0], inbox[0]) + ReceiversWork(ws[1..], inbox[1..])
  }

  function ComputersWork(ws: seq<Worker>): nat {
    if ws == [] then 0 else ComputeWork(ws[0]) + ComputersWork(ws[1..])
  }

  function WritersWork(ws: seq<Worker>): nat {
    if ws == [] then 0 else WriterWork(ws[0]) + WritersWork(ws[1..])
  }

  /** Unread chunks, queued and held tasks, live threads, and what the main thread has left to do. */
  function Work(s: State): nat
    requires |s.receivers| == |s.inbox|
  {
    ReceiversWork(s.receivers, s.inbox) + 5 * |s.cq| + ComputersWork(s.compute) + 3 * |s.wq| + WritersWork(s.writers)
    + PhaseWork(s.phase)
  }

  lemma {:induction false} ReceiversWorkUpdate(ws: seq<Worker>, inbox: seq<seq<Header>>, i: nat, x: Worker, box: seq<Header>)
    requires i < |ws| == |inbox|
    ensures ReceiversWork(ws[i := x], inbox[i := box]) + ReceiverWork(ws[i], inbox[i])
         == ReceiversWork(ws, inbox) + ReceiverWork(x, box)
  {
    if i > 0 {
      ReceiversWorkUpdate(ws[1..], inbox[1..], i - 1, x, box);
      assert ws[i := x][1..] == ws[1..][i - 1 := x] && inbox[i := box][1..] == inbox[1..][i - 1 := box];
    } else {
      assert ws[i := x][1..] == ws[1..] && inbox[i := box][1..] == inbox[1..];
    }
  }

  lemma {:induction false} ComputersWorkUpdate(ws: seq<Worker>, i: nat, x: Worker)
    requires i < |ws|
    ensures ComputersWork(ws[i := x]) + ComputeWork(ws[i]) == ComputersWork(ws) + ComputeWork(x)
  {
    if i > 0 {
      ComputersWorkUpdate(ws[1..], i - 1, x);
      assert ws[i := x][1..] == ws[1..][i - 1 := x];
    } else {
      assert ws[i := x][1..] == ws[1..];
    }
  }

  lemma {:induction false} WritersWorkUpdate(ws: seq<Worker>, i: nat, x: Worker)
    requires i < |ws|
    ensures WritersWork(ws[i := x]) + WriterWork(ws[i]) == WritersWork(ws) + WriterWork(x)
  {
    if i > 0 {
      WritersWorkUpdate(ws[1..], i - 1, x);
      assert ws[i := x][1..] == ws[1..][i - 1 := x];
    } else {
      assert ws[i := x][1..] == ws[1..];
    }
  }

  lemma ReceiverLeavesLess(s: State, a: Action)
    requires |s.receivers| == |s.inbox| && Enabled(s, a) && (a.Accept? || a.Forward? || a.HangUp?)
    ensures |Next(s, a).receivers| == |Next(s, a).inbox| && Work(Next(s, a)) < Work(s)
  {
    var s' := Next(s, a);
    ReceiversWorkUpdate(s.receivers, s.inbox, a.i, s'.receivers[a.i], s'.inbox[a.i]);
    assert s'.inbox == s.inbox[a.i := s'.inbox[a.i]];
  }

  lemma WorkerLeavesLess(s: State, a: Action)
    requires |s.receivers| == |s.inbox| && Enabled(s, a)
    requires a.CTake? || a.CPush? || a.CQuit? || a.CSeal? || a.WTake? || a.WDone? || a.WQuit?
    ensures |Next(s, a).receivers| == |Next(s, a).inbox| && Work(Next(s, a)) < Work(s)
  {
    var s' := Next(s, a);
    if a.WTake? || a.WDone? || a.WQuit? {
      WritersWorkUpdate(s.writers, a.i, s'.writers[a.i]);
    } else {
      ComputersWorkUpdate(s.compute, a.i, s'.compute[a.i]);
    }
  }

  /** Every step leaves less work, so no run is longer than the work it starts with. */
  lemma StepLeavesLess(s: State, a: Action)
    requires |s.receivers| == |s.inbox| && Enabled(s, a)
    ensures |Next(s, a).receivers| == |Next(s, a).inbox| && Work(Next(s, a)) < Work(s)
  {
    if a.Accept? || a.Forward? || a.HangUp? {
      ReceiverLeavesLess(s, a);
    } else if a.CTake? || a.CPush? || a.CQuit? || a.CSeal? || a.WTake? || a.WDone? || a.WQuit? {
      WorkerLeavesLess(s, a);
    }
  }

  lemma {:induction false} RunsAreBounded(s: State, acts: seq<Action>)
    requires |s.receivers| == |s.inbox| && IsRun(s, acts)
    ensures |acts| <= Work(s)
    decreases |acts|
  {
    if acts != [] {
      StepLeavesLess(s, acts[0]);
      RunsAreBounded(Next(s, acts[0]), acts[1..]);
    }
  }

  // -------------------------------------------------------------------------------------------
  // No run gets stuck
  // -------------------------------------------------------------------------------------------

  lemma {:induction false} HolderExists(ws: seq<Worker>, sel: Selector) returns (i: nat)
    requires CountHeld(ws, sel) > 0
    ensures IsBusy(ws, i) && Hit(sel, ws[i].task) > 0
  {
    if HeldBy(ws[0], sel) > 0 {
      i := 0;
    } else {
      i := HolderExists(ws[1..], sel);
      i := i + 1;
    }
  }

  lemma HeldIsBlock(cfg: Config, s: State, ws: seq<Worker>, i: nat)
    requires Owned(cfg, s) && IsBusy(ws, i) && (ws == s.receivers || ws == s.compute || ws == s.writers)
    ensures ws[i].task.block < Blocks(cfg)
  {
    HeldMember(ws, i, OnBlock(ws[i].task.block));
    assert Places(s, ws[i].task.block) >= 1;
  }

  /** `a` is not a step of compute worker `f`. */
  predicate Spares(a: Action, f: nat) {
    !(a.CTake? || a.CPush? || a.CQuit? || a.CSeal?) || a.i != f
  }

  /** A live compute worker can move once the queue is sealed, or while it has something to do. */
  lemma ComputerMoves(cfg: Config, s: State, f: nat, i: nat) returns (a: Action)
    requires Inv(cfg, s) && i < |s.compute| && s.compute[i] != Exited && i != f
    requires s.compute[i] == Ready ==> s.cq != [] || s.cSealed
    ensures Enabled(s, a) && Spares(a, f)
  {
    if s.compute[i].Busy? {
      HeldIsBlock(cfg, s, s.compute, i);
      a := CPush(i);
    } else if s.compute[i] == Leaving {
      a := CSeal(i);
    } else if s.cq != [] {
      a := CTake(i);
    } else {
      a := CQuit(i);
    }
  }

  lemma WriterMoves(cfg: Config, s: State, f: nat, i: nat) returns (a: Action)
    requires Inv(cfg, s) && i < |s.writers| && s.writers[i] != Exited
    requires s.writers[i] == Ready ==> s.wq != [] || s.wSealed
    ensures Enabled(s, a) && Spares(a, f)
  {
    if s.writers[i].Busy? {
      HeldIsBlock(cfg, s, s.writers, i);
      a := WDone(i);
    } else if s.wq != [] {
      a := WTake(i);
    } else {
      a := WQuit(i);
    }
  }

  /** Compute worker `f` may be held up with a task, but then there is another one, `g`. */
  ghost predicate HeldUp(s: State, f: nat, g: nat) {
    g < |s.compute| && g != f && (f < |s.compute| ==> s.compute[f].Busy?)
  }

  /** When the memory pool is empty, any block that `f` does not hold is with a task that can move. */
  lemma BlockMoves(cfg: Config, s: State, f: nat, g: nat, b: nat) returns (a: Action)
    requires Inv(cfg, s) && s.phase == Joining && cfg.writers >= 1 && b < Blocks(cfg) && CountFree(s.free, b) == 0
    requires HeldUp(s, f, g) && (f < |s.compute| ==> s.compute[f].task.block != b)
    ensures Enabled(s, a) && Spares(a, f)
  {
    var sel := OnBlock(b);
    assert Places(s, b) == 1;
    if CountHeld(s.receivers, sel) > 0 {
      var i := HolderExists(s.receivers, sel);
      HeldIsBlock(cfg, s, s.receivers, i);
      a := Forward(i);
    } else if CountQueue(s.cq, sel) > 0 {
      a := ComputerMoves(cfg, s, f, g);
    } else if CountHeld(s.compute, sel) > 0 {
      var c := HolderExists(s.compute, sel);
      a := ComputerMoves(cfg, s, f, c);
    } else if CountQueue(s.wq, sel) > 0 {
      a := WriterMoves(cfg, s, f, 0);
    } else {
      var i := HolderExists(s.writers, sel);
      a := WriterMoves(cfg, s, f, i);
    }
  }

  lemma ReceiverMoves(cfg: Config, s: State, f: nat, g: nat, i: nat) returns (a: Action)
    requires Inv(cfg, s) && s.phase == Joining && cfg.writers >= 1 && i < |s.receivers| && s.receivers[i] != Exited
    requires HeldUp(s, f, g)
    ensures Enabled(s, a) && Spares(a, f)
  {
    if s.receivers[i].Busy? {
      HeldIsBlock(cfg, s, s.receivers, i);
      a := Forward(i);
    } else if Stops(s.inbox[i]) {
      a := HangUp(i);
    } else if s.free != [] {
      a := Accept(i);
    } else {
      a := BlockMoves(cfg, s, f, g, if f < |s.compute| && s.compute[f].task.block == 0 then 1 else 0);
    }
  }

  /** Compute worker `f` still holds a task, and everyone else has left. */
  ghost predicate LeftAlone(s: State, f: nat) {
    && s.phase == WaitingCompute && IsBusy(s.compute, f)
    && (forall c :: 0 <= c < |s.compute| && c != f ==> s.compute[c] == Exited)
    && AllExited(s.writers)
  }

  lemma AnyWriterMoves(cfg: Config, s: State, f: nat) returns (a: Action)
    requires Inv(cfg, s) && s.wSealed && !AllExited(s.writers)
    ensures Enabled(s, a) && Spares(a, f)
  {
    var i :| 0 <= i < |s.writers| && s.writers[i] != Exited;
    a := WriterMoves(cfg, s, f, i);
  }

  lemma DrainMoves(cfg: Config, s: State, f: nat, g: nat) returns (a: Action)
    requires Inv(cfg, s) && s.phase == WaitingCompute && HeldUp(s, f, g) && !LeftAlone(s, f)
    ensures Enabled(s, a) && Spares(a, f)
  {
    if i :| 0 <= i < |s.compute| && i != f && s.compute[i] != Exited {
      a := ComputerMoves(cfg, s, f, i);
    } else if f >= |s.compute| {
      a := CJoin;
    } else {
      assert s.compute[g] == Exited;
      a := AnyWriterMoves(cfg, s, f);
    }
  }

  /** Unless the main thread has finished, some thread can move; even if compute worker `f` is held up
      with a task, as long as there is another compute worker and not everyone else has left. */
  lemma SomeoneMoves(cfg: Config, s: State, f: nat, g: nat) returns (a: Action)
    requires Inv(cfg, s) && s.phase != Finished && cfg.writers >= 1
    requires HeldUp(s, f, g) && !LeftAlone(s, f)
    ensures Enabled(s, a) && Spares(a, f)
  {
    match s.phase
    case Joining =>
      if AllExited(s.receivers) {
        a := Join;
      } else {
        var i :| 0 <= i < |s.receivers| && s.receivers[i] != Exited;
        a := ReceiverMoves(cfg, s, f, g, i);
      }
    case Sealing => a := Seal;
    case WaitingCompute => a := DrainMoves(cfg, s, f, g);
    case WaitingWrite =>
      if AllExited(s.writers) {
        a := WJoin;
      } else {
        assert s.compute[g] == Exited;
        a := AnyWriterMoves(cfg, s, f);
      }
  }

  /** Progress: no reachable state before the end is stuck, whatever the number of threads. */
  lemma NoDeadlock(cfg: Config, acts: seq<Action>) returns (a: Action)
    requires cfg.writers >= 1 && cfg.computers >= 1 && IsRun(Init(cfg), acts)
    requires Exec(Init(cfg), acts).phase != Finished
    ensures Enabled(Exec(Init(cfg), acts), a)
  {
    EveryRunKeepsInv(cfg, acts);
    a := SomeoneMoves(cfg, Exec(Init(cfg), acts), cfg.computers, 0);
  }
}
