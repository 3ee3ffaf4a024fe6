/**
 The block pipeline of a helper node (src/tcp_server.cc, include/thread_pool.hh, src/memory_pool.cc,
 src/compute_worker.cc, src/write_worker.cc) as a transition system.

 Receivers take a memory block per incoming chunk and queue the chunk for computing or for writing;
 compute workers encode blocks and pass them on; write workers write them out and give them back.
 The main thread joins the receivers, seals the compute queue, and joins the workers.  Every section
 that the program protects by a mutex is one step; a wait is a step that is not enabled.
 */
module Pipeline {

  // -------------------------------------------------------------------------------------------
  // State
  // -------------------------------------------------------------------------------------------

  /** The header of a chunk on a connection, and the chunk itself. */
  datatype Header = Header(source: nat, target: nat, coefficient: nat, chunk: nat)

  /** A queued chunk: its header, its connection and its memory block. */
  datatype Task = Task(header: Header, from: nat, block: nat)

  /** What a memory block holds: a chunk, encoded so many times. */
  datatype Content = Content(header: Header, encoded: nat)

  datatype Record = Record(task: Task, content: Content)

  datatype Worker = Ready | Busy(task: Task) | Leaving | Exited

  datatype Phase = Joining | Sealing | WaitingCompute | WaitingWrite | Finished

  datatype Config = Config(inputs: seq<seq<Header>>, computers: nat, writers: nat)

  /** `log` and `written` are history: every task a receiver made, and every chunk that was written. */
  datatype State = State(
    free: seq<nat>, mem: seq<Content>,
    receivers: seq<Worker>, inbox: seq<seq<Header>>,
    cq: seq<Task>, cSealed: bool, compute: seq<Worker>,
    wq: seq<Task>, wSealed: bool, writers: seq<Worker>,
    phase: Phase, log: seq<Task>, written: seq<Record>)

  datatype Action =
    | Accept(i: nat) | Forward(i: nat) | HangUp(i: nat)
    | CTake(i: nat) | CPush(i: nat) | CQuit(i: nat) | CSeal(i: nat)
    | WTake(i: nat) | WDone(i: nat) | WQuit(i: nat)
    | Join | Seal | CJoin | WJoin

  function Blocks(cfg: Config): nat {
    2 * |cfg.inputs|
  }

  /** A header with equal ends is the shutdown signal. */
  predicate Stops(inbox: seq<Header>) {
    inbox == [] || inbox[0].source == inbox[0].target
  }

  function UpFrom(lo: nat, n: nat): (s: seq<nat>)
    ensures |s| == n
    decreases n
  {
    if n == 0 then [] else [lo] + UpFrom(lo + 1, n - 1)
  }

  function Init(cfg: Config): State {
    State(UpFrom(0, Blocks(cfg)),
          seq(Blocks(cfg), _ => Content(Header(0, 0, 0, 0), 0)),
          seq(|cfg.inputs|, _ => Ready), cfg.inputs,
          [], false, seq(cfg.computers, _ => Ready),
          [], false, seq(cfg.writers, _ => Ready),
          Joining, [], [])
  }

  // -------------------------------------------------------------------------------------------
  // Steps
  // -------------------------------------------------------------------------------------------

  predicate IsBusy(ws: seq<Worker>, i: nat) {
    i < |ws| && ws[i].Busy?
  }

  predicate IsReady(ws: seq<Worker>, i: nat) {
    i < |ws| && ws[i] == Ready
  }

  predicate AllExited(ws: seq<Worker>) {
    forall i :: 0 <= i < |ws| ==> ws[i] == Exited
  }

  predicate Enabled(s: State, a: Action) {
    match a
    case Accept(i) => IsReady(s.receivers, i) && i < |s.inbox| && !Stops(s.inbox[i]) && s.free != []
    case Forward(i) => IsBusy(s.receivers, i) && s.receivers[i].task.block < |s.mem|
    case HangUp(i) => IsReady(s.receivers, i) && i < |s.inbox| && Stops(s.inbox[i])
    case CTake(i) => IsReady(s.compute, i) && s.cq != []
    case CPush(i) => IsBusy(s.compute, i) && s.compute[i].task.block < |s.mem|
    case CQuit(i) => IsReady(s.compute, i) && s.cq == [] && s.cSealed
    case CSeal(i) => i < |s.compute| && s.compute[i] == Leaving
    case WTake(i) => IsReady(s.writers, i) && s.wq != []
    case WDone(i) => IsBusy(s.writers, i) && s.writers[i].task.block < |s.mem|
    case WQuit(i) => IsReady(s.writers, i) && s.wq == [] && s.wSealed
    case Join => s.phase == Joining && AllExited(s.receivers)
    case Seal => s.phase == Sealing
    case CJoin => s.phase == WaitingCompute && AllExited(s.compute)
    case WJoin => s.phase == WaitingWrite && AllExited(s.writers)
  }

  /** The task a receiver makes when it accepts a chunk: it takes the first free block. */
  function NewTask(s: State, i: nat): Task
    requires Enabled(s, Accept(i))
  {
    Task(s.inbox[i][0], i, s.free[0])
  }

  function Next(s: State, a: Action): State
    requires Enabled(s, a)
  {
    match a
    case Accept(i) =>
      s.(free := s.free[1..], receivers := s.receivers[i := Busy(NewTask(s, i))],
         inbox := s.inbox[i := s.inbox[i][1..]], log := s.log + [NewTask(s, i)])
    case Forward(i) =>
      var t := s.receivers[i].task;
      var s' := s.(receivers := s.receivers[i := Ready], mem := s.mem[t.block := Content(t.header, 0)]);
      if t.header.coefficient != 0 then s'.(cq := s.cq + [t]) else s'.(wq := s.wq + [t])
    case HangUp(i) => s.(receivers := s.receivers[i := Exited])
    case CTake(i) => s.(cq := s.cq[1..], compute := s.compute[i := Busy(s.cq[0])])
    case CPush(i) =>
      var t := s.compute[i].task;
      s.(compute := s.compute[i := Ready], wq := s.wq + [t],
         mem := s.mem[t.block := s.mem[t.block].(encoded := s.mem[t.block].encoded + 1)])
    case CQuit(i) => s.(compute := s.compute[i := Leaving])
    case CSeal(i) => s.(compute := s.compute[i := Exited], wSealed := true)
    case WTake(i) => s.(wq := s.wq[1..], writers := s.writers[i := Busy(s.wq[0])])
    case WDone(i) =>
      var t := s.writers[i].task;
      s.(writers := s.writers[i := Ready], free := s.free + [t.block],
         written := s.written + [Record(t, s.mem[t.block])])
    case WQuit(i) => s.(writers := s.writers[i := Exited])
    case Join => s.(phase := Sealing)
    case Seal => s.(phase := WaitingCompute, cSealed := true)
    case CJoin => s.(phase := WaitingWrite)
    case WJoin => s.(phase := Finished)
  }

  predicate IsRun(s: State, acts: seq<Action>)
    decreases |acts|
  {
    acts == [] || (Enabled(s, acts[0]) && IsRun(Next(s, acts[0]), acts[1..]))
  }

  function Exec(s: State, acts: seq<Action>): State
    requires IsRun(s, acts)
    decreases |acts|
  {
    if acts == [] then s else Exec(Next(s, acts[0]), acts[1..])
  }

  // -------------------------------------------------------------------------------------------
  // Counting places
  // -------------------------------------------------------------------------------------------

  /** What is counted: the tasks on a memory block, one particular task, or all tasks. */
  datatype Selector = OnBlock(block: nat) | Exactly(task: Task) | AnyTask

  function Hit(sel: Selector, t: Task): nat {
    match sel
    case OnBlock(b) => if t.block == b then 1 else 0
    case Exactly(u) => if t == u then 1 else 0
    case AnyTask => 1
  }

  function CountQueue(q: seq<Task>, sel: Selector): nat {
    if q == [] then 0 else Hit(sel, q[0]) + CountQueue(q[1..], sel)
  }

  function HeldBy(w: Worker, sel: Selector): nat {
    if w.Busy? then Hit(sel, w.task) else 0
  }

  function CountHeld(ws: seq<Worker>, sel: Selector): nat {
    if ws == [] then 0 else HeldBy(ws[0], sel) + CountHeld(ws[1..], sel)
  }

  function CountFree(free: seq<nat>, b: nat): nat {
    if free == [] then 0 else (if free[0] == b then 1 else 0) + CountFree(free[1..], b)
  }

  function CountWritten(written: seq<Record>, sel: Selector): nat {
    if written == [] then 0 else Hit(sel, written[0].task) + CountWritten(written[1..], sel)
  }

  /** The tasks between a receiver and a written file. */
  function InFlight(s: State, sel: Selector): nat {
    CountHeld(s.receivers, sel) + CountQueue(s.cq, sel) + CountHeld(s.compute, sel)
    + CountQueue(s.wq, sel) + CountHeld(s.writers, sel)
  }

  lemma {:induction false} QueuePush(q: seq<Task>, t: Task, sel: Selector)
    ensures CountQueue(q + [t], sel) == CountQueue(q, sel) + Hit(sel, t)
  {
    if q == [] {
      assert q + [t] == [t] && [t][1..] == [];
    } else {
      QueuePush(q[1..], t, sel);
      assert (q + [t])[1..] == q[1..] + [t];
    }
  }

  lemma {:induction false} WrittenPush(q: seq<Record>, r: Record, sel: Selector)
    ensures CountWritten(q + [r], sel) == CountWritten(q, sel) + Hit(sel, r.task)
  {
    if q == [] {
      assert q + [r] == [r] && [r][1..] == [];
    } else {
      WrittenPush(q[1..], r, sel);
      assert (q + [r])[1..] == q[1..] + [r];
    }
  }

  lemma {:induction false} FreePush(q: seq<nat>, x: nat, b: nat)
    ensures CountFree(q + [x], b) == CountFree(q, b) + if x == b then 1 else 0
  {
    if q == [] {
      assert q + [x] == [x] && [x][1..] == [];
    } else {
      FreePush(q[1..], x, b);
      assert (q + [x])[1..] == q[1..] + [x];
    }
  }

  lemma {:induction false} HeldUpdate(ws: seq<Worker>, i: nat, x: Worker, sel: Selector)
    requires i < |ws|
    ensures CountHeld(ws[i := x], sel) + HeldBy(ws[i], sel) == CountHeld(ws, sel) + HeldBy(x, sel)
  {
    if i > 0 {
      HeldUpdate(ws[1..], i - 1, x, sel);
      assert ws[i := x][1..] == ws[1..][i - 1 := x];
    } else {
      assert ws[i := x][1..] == ws[1..];
    }
  }

  lemma {:induction false} QueueMember(q: seq<Task>, k: nat, sel: Selector)
    requires k < |q|
    ensures CountQueue(q, sel) >= Hit(sel, q[k])
  {
    if k > 0 {
      QueueMember(q[1..], k - 1, sel);
    }
  }

  lemma {:induction false} HeldMember(ws: seq<Worker>, i: nat, sel: Selector)
    requires i < |ws|
    ensures CountHeld(ws, sel) >= HeldBy(ws[i], sel)
  {
    if i > 0 {
      HeldMember(ws[1..], i - 1, sel);
    }
  }

  // -------------------------------------------------------------------------------------------
  // Conservation
  // -------------------------------------------------------------------------------------------

  function Made(s: State, a: Action, sel: Selector): nat
    requires Enabled(s, a)
  {
    if a.Accept? then Hit(sel, NewTask(s, a.i)) else 0
  }

  function Retired(s: State, a: Action, sel: Selector): nat
    requires Enabled(s, a)
  {
    if a.WDone? then Hit(sel, s.writers[a.i].task) else 0
  }

  ghost predicate Conserves(s: State, a: Action, sel: Selector)
    requires Enabled(s, a)
  {
    InFlight(Next(s, a), sel) + Retired(s, a, sel) == InFlight(s, sel) + Made(s, a, sel)
  }

  lemma ReceiverConserves(s: State, a: Action, sel: Selector)
    requires Enabled(s, a) && (a.Accept? || a.HangUp?)
    ensures Conserves(s, a, sel)
  {
    HeldUpdate(s.receivers, a.i, Next(s, a).receivers[a.i], sel);
  }

  lemma ForwardConserves(s: State, i: nat, sel: Selector)
    requires Enabled(s, Forward(i))
    ensures Conserves(s, Forward(i), sel)
  {
    var t := s.receivers[i].task;
    HeldUpdate(s.receivers, i, Ready, sel);
    if t.header.coefficient != 0 {
      QueuePush(s.cq, t, sel);
    } else {
      QueuePush(s.wq, t, sel);
    }
  }

  lemma ComputeConserves(s: State, a: Action, sel: Selector)
    requires Enabled(s, a) && (a.CTake? || a.CPush? || a.CQuit? || a.CSeal?)
    ensures Conserves(s, a, sel)
  {
    HeldUpdate(s.compute, a.i, Next(s, a).compute[a.i], sel);
    if a.CPush? {
      QueuePush(s.wq, s.compute[a.i].task, sel);
    }
  }

  lemma WriterConserves(s: State, a: Action, sel: Selector)
    requires Enabled(s, a) && (a.WTake? || a.WDone? || a.WQuit?)
    ensures Conserves(s, a, sel)
  {
    HeldUpdate(s.writers, a.i, Next(s, a).writers[a.i], sel);
  }

  /** A step passes tasks on; only accepting makes one and only writing retires one. */
  lemma StepConserves(s: State, a: Action, sel: Selector)
    requires Enabled(s, a)
    ensures Conserves(s, a, sel)
  {
    if a.Accept? || a.HangUp? {
      ReceiverConserves(s, a, sel);
    } else if a.Forward? {
      ForwardConserves(s, a.i, sel);
    } else if a.CTake? || a.CPush? || a.CQuit? || a.CSeal? {
      ComputeConserves(s, a, sel);
    } else if a.WTake? || a.WDone? || a.WQuit? {
      WriterConserves(s, a, sel);
    }
  }

  /** The number of places a memory block is in. */
  function Places(s: State, b: nat): nat {
    CountFree(s.free, b) + InFlight(s, OnBlock(b))
  }

  /** Every memory block is in exactly one place: free, or with exactly one task in exactly one hand or
      queue; and free blocks and tasks add up to the size of the pool. */
  ghost predicate Owned(cfg: Config, s: State) {
    && (forall b: nat :: Places(s, b) == if b < Blocks(cfg) then 1 else 0)
    && |s.free| + InFlight(s, AnyTask) == Blocks(cfg)
  }

  lemma StepKeepsOwned(cfg: Config, s: State, a: Action)
    requires Owned(cfg, s) && Enabled(s, a)
    ensures Owned(cfg, Next(s, a))
  {
    forall b: nat ensures Places(Next(s, a), b) == Places(s, b) {
      StepConserves(s, a, OnBlock(b));
      if a.WDone? {
        FreePush(s.free, s.writers[a.i].task.block, b);
      }
    }
    StepConserves(s, a, AnyTask);
  }

  /** Every task a receiver made is either in flight or written, as often as it was made; and so many
      tasks altogether. */
  ghost predicate Accounted(s: State) {
    forall sel: Selector :: Balanced(s, sel)
  }

  ghost predicate Balanced(s: State, sel: Selector) {
    CountQueue(s.log, sel) == InFlight(s, sel) + CountWritten(s.written, sel)
  }

  lemma StepKeepsBalance(s: State, a: Action, sel: Selector)
    requires Balanced(s, sel) && Enabled(s, a)
    ensures Balanced(Next(s, a), sel)
  {
    StepConserves(s, a, sel);
    if a.Accept? {
      QueuePush(s.log, NewTask(s, a.i), sel);
    }
    if a.WDone? {
      WrittenPush(s.written, Record(s.writers[a.i].task, s.mem[s.writers[a.i].task.block]), sel);
    }
  }

  lemma StepKeepsAccounted(s: State, a: Action)
    requires Accounted(s) && Enabled(s, a)
    ensures Accounted(Next(s, a))
  {
    forall sel: Selector ensures Balanced(Next(s, a), sel) {
      StepKeepsBalance(s, a, sel);
    }
  }

  // -------------------------------------------------------------------------------------------
  // What was received
  // -------------------------------------------------------------------------------------------

  /** The chunks of an input up to its shutdown signal. */
  function Deliverable(inbox: seq<Header>): seq<Header> {
    if Stops(inbox) then [] else [inbox[0]] + Deliverable(inbox[1..])
  }

  /** The chunks that receiver `i` has made tasks of, in order. */
  function TakenBy(log: seq<Task>, i: nat): seq<Header> {
    if log == [] then []
    else TakenBy(log[..|log| - 1], i) + if log[|log| - 1].from == i then [log[|log| - 1].header] else []
  }

  ghost predicate Shaped(cfg: Config, s: State) {
    && |s.receivers| == |s.inbox| == |cfg.inputs|
    && |s.compute| == cfg.computers && |s.writers| == cfg.writers && |s.mem| == Blocks(cfg)
  }

  /** What a receiver has taken and what it will still take make up its input. */
  ghost predicate Received(cfg: Config, s: State)
    requires Shaped(cfg, s)
  {
    forall i :: 0 <= i < |s.inbox| ==> Share(s.log, s.receivers[i], s.inbox[i], i) == Deliverable(cfg.inputs[i])
  }

  lemma TakenPush(log: seq<Task>, t: Task, i: nat)
    ensures TakenBy(log + [t], i) == TakenBy(log, i) + if t.from == i then [t.header] else []
  {
  }

  /** What receiver `i` has taken and will take. */
  function Share(log: seq<Task>, receiver: Worker, inbox: seq<Header>, i: nat): seq<Header> {
    TakenBy(log, i) + if receiver == Exited then [] else Deliverable(inbox)
  }

  lemma AcceptKeepsShare(s: State, i: nat, j: nat)
    requires Enabled(s, Accept(i)) && j < |s.inbox| == |s.receivers|
    ensures var s' := Next(s, Accept(i));
            Share(s'.log, s'.receivers[j], s'.inbox[j], j) == Share(s.log, s.receivers[j], s.inbox[j], j)
  {
    var t := NewTask(s, i);
    if i == j {
      TakenOne(s.log, t, s.inbox[i]);
    } else {
      TakenPush(s.log, t, j);
      assert TakenBy(s.log, j) + [] == TakenBy(s.log, j);
    }
  }

  lemma TakenOne(log: seq<Task>, t: Task, inbox: seq<Header>)
    requires !Stops(inbox) && t.header == inbox[0]
    ensures TakenBy(log + [t], t.from) + Deliverable(inbox[1..]) == TakenBy(log, t.from) + Deliverable(inbox)
  {
  }

  lemma OtherKeepsShare(s: State, a: Action, j: nat)
    requires Enabled(s, a) && !a.Accept? && j < |s.inbox| == |s.receivers|
    ensures var s' := Next(s, a);
            |s'.inbox| == |s'.receivers| == |s.inbox|
            && Share(s'.log, s'.receivers[j], s'.inbox[j], j) == Share(s.log, s.receivers[j], s.inbox[j], j)
  {
  }

  lemma StepKeepsReceived(cfg: Config, s: State, a: Action)
    requires Shaped(cfg, s) && Received(cfg, s) && Enabled(s, a)
    ensures Shaped(cfg, Next(s, a)) && Received(cfg, Next(s, a))
  {
    var s' := Next(s, a);
    forall i | 0 <= i < |s.inbox|
      ensures Share(s'.log, s'.receivers[i], s'.inbox[i], i) == Share(s.log, s.receivers[i], s.inbox[i], i)
    {
      if a.Accept? {
        AcceptKeepsShare(s, a.i, i);
      } else {
        OtherKeepsShare(s, a, i);
      }
    }
  }
}
