/** The single-worker task queue of src/manager.cpp: its critical sections, and every interleaving
    of callers, the worker and a shutdown. */
module TaskQueue {

  type Task = nat

  // ---------------------------------------------------------------- the critical sections

  /** What the mutex protects. */
  datatype Queue = Queue(tasks: seq<Task>, stopped: bool) {
    /** `enqueue` under the lock: a stopped queue takes nothing. */
    function Put(task: Task): Queue {
      if stopped then this else this.(tasks := tasks + [task])
    }

    /** The condition `dequeue` waits for. */
    predicate Ready() { tasks != [] || stopped }

    /** `dequeue` under the lock, once ready: the first task, or none from a stopped empty queue. */
    function Take(): (r: (Queue, Taken))
      requires Ready()
    {
      if tasks == [] then (this, Nothing) else (this.(tasks := tasks[1..]), Got(tasks[0]))
    }
  }

  datatype Taken = Nothing | Got(task: Task)

  class SharedQueue {
    var tasks: seq<Task>
    var stopped: bool

    constructor ()
      ensures Contents() == Queue([], false)
    {
      tasks, stopped := [], false;
    }

    function Contents(): Queue
      reads this
    {
      Queue(tasks, stopped)
    }

    /** The locked part of `enqueue`; the caller goes on to notify only if the task went in. */
    method Enqueue(task: Task) returns (notify: bool)
      modifies this
      ensures Contents() == old(Contents()).Put(task)
      ensures notify == !old(stopped)
    {
      if stopped {
        return false;
      }
      tasks := tasks + [task];
      return true;
    }

    /** The locked part of `dequeue`; `wait` means the thread goes to sleep on the condition. */
    method Dequeue() returns (wait: bool, task: Taken)
      modifies this
      ensures wait == !old(Contents()).Ready()
      ensures if wait then Contents() == old(Contents()) else (Contents(), task) == old(Contents()).Take()
    {
      wait, task := false, Nothing;
      if !(tasks != [] || stopped) {
        wait := true;
        return;
      }
      if stopped && tasks == [] {
        return;
      }
      task := Got(tasks[0]);
      tasks := tasks[1..];
    }

    method Stop()
      modifies this
      ensures Contents() == old(Contents()).(stopped := true)
    {
      stopped := true;
    }
  }

  // ---------------------------------------------------------------- the threads

  /** The worker: about to test `m_running`, about to take the lock, asleep on the condition,
      holding a task, running it, out of the loop. */
  datatype Worker = Testing | Dequeuing | Waiting | Holding(task: Task) | Running(task: Task) | Finished

  /** A caller of enqueueTask: not inside it, past the test of `m_running`, past the push. */
  datatype Caller = Outside | Admitted(task: Task) | Notifying

  /** `shutdown`: not called, `m_running` cleared, queue stopped, all notified, worker joined. */
  datatype Shutdown = Idle | Flagged | Stopped | Notified | Joined

  datatype State = State(
    queue: Queue,
    running: bool,
    worker: Worker,
    callers: seq<Caller>,
    shutdown: Shutdown,
    /** Every task ever accepted into the queue, and every task ever started, in order. */
    accepted: seq<Task>,
    started: seq<Task>)

  predicate Init(s: State) {
    && s.queue == Queue([], false) && s.running && s.worker == Testing && s.shutdown == Idle
    && (forall i | 0 <= i < |s.callers| :: s.callers[i] == Outside)
    && s.accepted == [] && s.started == []
  }

  datatype Step =
    | Call(caller: nat, task: Task) | Push(caller: nat) | Notify(caller: nat)
    | TestRunning | LockAndTake | WakeUp | Begin | End
    | ClearRunning | StopQueue | NotifyAll | Join

  /** notify_one and notify_all: the only thread that ever waits is the worker. */
  function Woken(w: Worker): Worker { if w == Waiting then Dequeuing else w }

  predicate Enabled(s: State, step: Step) {
    match step
    case Call(c, _) => c < |s.callers| && s.callers[c] == Outside
    case Push(c) => c < |s.callers| && s.callers[c].Admitted?
    case Notify(c) => c < |s.callers| && s.callers[c] == Notifying
    case TestRunning => s.worker == Testing
    case LockAndTake => s.worker == Dequeuing
    case WakeUp => s.worker == Waiting // a spurious wake-up
    case Begin => s.worker.Holding?
    case End => s.worker.Running?
    case ClearRunning => s.shutdown == Idle || s.shutdown == Joined
    case StopQueue => s.shutdown == Flagged
    case NotifyAll => s.shutdown == Stopped
    case Join => s.shutdown == Notified && s.worker == Finished
  }

  function Next(s: State, step: Step): State
    requires Enabled(s, step)
  {
    match step
    case Call(c, t) => if s.running then s.(callers := s.callers[c := Admitted(t)]) else s // throws
    case Push(c) =>
      var t := s.callers[c].task;
      s.(queue := s.queue.Put(t),
         callers := s.callers[c := if s.queue.stopped then Outside else Notifying],
         accepted := if s.queue.stopped then s.accepted else s.accepted + [t])
    case Notify(c) => s.(callers := s.callers[c := Outside], worker := Woken(s.worker))
    case TestRunning => s.(worker := if s.running then Dequeuing else Finished)
    case LockAndTake =>
      if !s.queue.Ready() then s.(worker := Waiting)
      else
        var (queue, taken) := s.queue.Take();
        s.(queue := queue, worker := if taken.Got? then Holding(taken.task) else Testing)
    case WakeUp => s.(worker := Dequeuing)
    case Begin => s.(worker := Running(s.worker.task), started := s.started + [s.worker.task])
    case End => s.(worker := Testing)
    case ClearRunning => s.(running := false, shutdown := Flagged)
    case StopQueue => s.(queue := s.queue.(stopped := true), shutdown := Stopped)
    case NotifyAll => s.(worker := Woken(s.worker), shutdown := Notified)
    case Join => s.(shutdown := Joined)
  }

  // ---------------------------------------------------------------- the invariant

  function InHand(w: Worker): seq<Task> { if w.Holding? then [w.task] else [] }

  predicate Inv(s: State) {
    // conservation: started, in hand, queued make up what was accepted, in order
    && s.started + InHand(s.worker) + s.queue.tasks == s.accepted
    // no lost wake-up: asleep beside a task only while somebody is about to notify
    && (s.worker == Waiting && s.queue.tasks != [] ==> Notifying in s.callers)
    // nobody sleeps through a stop: asleep on a stopped queue only before notify_all
    && (s.worker == Waiting && s.queue.stopped ==> s.shutdown == Stopped)
    && (s.queue.stopped || s.shutdown != Idle ==> !s.running)
    && (s.shutdown == Stopped || s.shutdown == Notified || s.shutdown == Joined ==> s.queue.stopped)
    && (s.worker == Finished ==> !s.running)
    && (s.shutdown == Joined ==> s.worker == Finished)
  }

  lemma InitHolds(s: State)
    requires Init(s)
    ensures Inv(s)
  {
  }

  /** What every step keeps. */
  lemma StepKeepsInv(s: State, step: Step)
    requires Inv(s) && Enabled(s, step)
    ensures Inv(Next(s, step))
  {
    match step {
      case Call(_, _) => CallKeepsInv(s, step);
      case Push(_) => PushKeepsInv(s, step);
      case LockAndTake => TakeKeepsInv(s, step);
      case _ =>
    }
  }

  lemma CallKeepsInv(s: State, step: Step)
    requires Inv(s) && Enabled(s, step) && step.Call?
    ensures Inv(Next(s, step))
  {
    CallersUpdate(s.callers, step.caller, Next(s, step).callers[step.caller]);
  }

  lemma PushKeepsInv(s: State, step: Step)
    requires Inv(s) && Enabled(s, step) && step.Push?
    ensures Inv(Next(s, step))
  {
    var c, s' := step.caller, Next(s, step);
    CallersUpdate(s.callers, c, s'.callers[c]);
    if !s.queue.stopped {
      assert s'.callers[c] == Notifying;
      assert s.started + InHand(s.worker) + (s.queue.tasks + [s.callers[c].task])
             == s.accepted + [s.callers[c].task];
    }
  }

  lemma TakeKeepsInv(s: State, step: Step)
    requires Inv(s) && Enabled(s, step) && step == LockAndTake
    ensures Inv(Next(s, step))
  {
    if s.queue.tasks != [] {
      assert s.queue.tasks == [s.queue.tasks[0]] + s.queue.tasks[1..];
    }
  }

  lemma CallersUpdate(callers: seq<Caller>, c: nat, with: Caller)
    requires c < |callers| && callers[c] != Notifying
    ensures Notifying in callers ==> Notifying in callers[c := with]
  {
    if Notifying in callers {
      var i :| 0 <= i < |callers| && callers[i] == Notifying;
      assert callers[c := with][i] == Notifying;
    }
  }

  // ---------------------------------------------------------------- whole runs

  /** A run: any interleaving of steps from a start state. */
  ghost predicate Run(states: seq<State>, steps: seq<Step>) {
    && |states| == |steps| + 1
    && Init(states[0])
    && forall i | 0 <= i < |steps| :: Enabled(states[i], steps[i]) && states[i + 1] == Next(states[i], steps[i])
  }

  lemma {:induction false} InvAlways(states: seq<State>, steps: seq<Step>, i: nat)
    requires Run(states, steps) && i < |states|
    ensures Inv(states[i])
  {
    if i == 0 {
      InitHolds(states[0]);
    } else {
      InvAlways(states, steps, i - 1);
      StepKeepsInv(states[i - 1], steps[i - 1]);
    }
  }

  /** In every state of every run the tasks started are a prefix of those accepted, in order of
      acceptance; the rest is in the worker's hand or still queued. Nothing runs twice or is lost. */
  lemma StartedIsPrefix(states: seq<State>, steps: seq<Step>, i: nat)
    requires Run(states, steps) && i < |states|
    ensures var s := states[i];
            s.started <= s.accepted && s.accepted[|s.started|..] == InHand(s.worker) + s.queue.tasks
  {
    InvAlways(states, steps, i);
    var s := states[i];
    assert s.accepted == s.started + (InHand(s.worker) + s.queue.tasks);
  }

  /** What is accepted and what is started only grows; a stopped queue stays stopped and accepts
      nothing more. */
  lemma {:induction false} OnlyGrows(states: seq<State>, steps: seq<Step>, i: nat, j: nat)
    requires Run(states, steps) && i <= j < |states|
    ensures states[i].accepted <= states[j].accepted && states[i].started <= states[j].started
    ensures !states[i].running ==> !states[j].running
    ensures states[i].queue.stopped ==> states[j].queue.stopped && states[j].accepted == states[i].accepted
    decreases j - i
  {
    if i < j {
      OnlyGrows(states, steps, i, j - 1);
      var step := steps[j - 1];
    }
  }

  /** Whether the worker is past its test of `m_running` and has not started a task since. */
  predicate Committed(w: Worker) { w == Dequeuing || w == Waiting || w.Holding? }

  /** From the moment `m_running` is cleared at most one more task starts, and none at all unless
      the worker was already committed to one more round. */
  lemma {:induction false} AtMostOneMore(states: seq<State>, steps: seq<Step>, i: nat, j: nat)
    requires Run(states, steps) && i <= j < |states| && !states[i].running
    ensures |states[j].started| + (if Committed(states[j].worker) then 1 else 0)
            <= |states[i].started| + (if Committed(states[i].worker) then 1 else 0)
    decreases j - i
  {
    if i < j {
      AtMostOneMore(states, steps, i, j - 1);
      OnlyGrows(states, steps, i, j - 1);
      var step := steps[j - 1];
    }
  }

  // ---------------------------------------------------------------- the worker gets out

  /** How many steps of its own the worker is from the end of the loop, once the queue is stopped. */
  function StepsLeft(w: Worker): nat {
    match w
    case Finished => 0
    case Testing => 1
    case Running(_) => 2
    case Holding(_) => 3
    case Dequeuing => 4
    case Waiting => 5
  }

  predicate ByWorker(step: Step) {
    step == TestRunning || step == LockAndTake || step == WakeUp || step == Begin || step == End
  }

  /** After stop and notify_all a worker that is not finished can always take a step; each of its
      steps brings it closer to the end of the loop and nobody else's step takes it back. So a
      worker whose task returns is joined. */
  lemma WorkerGetsOut(s: State)
    requires Inv(s) && s.queue.stopped && s.shutdown != Stopped
    ensures s.worker != Finished ==> exists step :: Enabled(s, step) && ByWorker(step)
    ensures forall step | Enabled(s, step) ::
              if ByWorker(step) then StepsLeft(Next(s, step).worker) < StepsLeft(s.worker)
              else StepsLeft(Next(s, step).worker) <= StepsLeft(s.worker)
  {
    if s.worker != Finished {
      var step := match s.worker
        case Testing => TestRunning
        case Dequeuing => LockAndTake
        case Holding(_) => Begin
        case _ => End;
      assert Enabled(s, step) && ByWorker(step);
    }
  }

  /** While the queue is open a sleeping worker beside a task is about to be woken: the caller that
      owes the notification can take its step, and the step wakes it. */
  lemma NoLostWakeup(s: State)
    requires Inv(s) && s.worker == Waiting && s.queue.tasks != []
    ensures exists c: nat :: Enabled(s, Notify(c)) && Next(s, Notify(c)).worker == Dequeuing
  {
    var c :| 0 <= c < |s.callers| && s.callers[c] == Notifying;
    assert Enabled(s, Notify(c)) && Next(s, Notify(c)).worker == Dequeuing;
  }
}
