/** The task queue and the wakeup protocol of src/EventLoop.cc: one loop thread and any number of
    other threads, interleaved step by step over the mutex-protected vector, the eventfd counter
    and the two flags. */
module EventLoop {

  type Task = int
  type Thread = int

  /** Where the loop thread is: about to clear quit_ at the top of loop(), at the test of quit_, blocked
      in poll, running channel handlers (`woken`: the wakeup channel is among those still to be
      handled), or inside doPendingFunctors. */
  datatype Pc = Entering | Testing | Polling | Handling(woken: bool) | Swapping | Running | Clearing | Stopped

  datatype State = State(
    pc: Pc,
    own: bool,               // the loop thread is between the push and the test of queueInLoop
    quit: bool,              // quit_
    calling: bool,           // callingPendingFunctors_
    pending: seq<Task>,      // pendingFunctors_
    batch: seq<Task>,        // the rest of the local vector of doPendingFunctors
    counter: nat,            // the eventfd
    pushers: set<Thread>,    // threads between the push and the wakeup of queueInLoop
    quitters: set<Thread>,   // threads between the store and the wakeup of quit
    // history
    queued: seq<Task>,       // every task queued, in the order of the pushes
    executed: seq<Task>,     // every task started, in order
    fence: nat,              // how many had been queued at the last swap
    mark: nat)               // how many had been queued when poll last returned

  datatype Step =
    | Enter
    | TestQuit
    | PollReturns(woken: bool)
    | HandleRead
    | HandlersDone
    | Swap
    | StartTask
    | BatchDone
    | ClearFlag
    | LoopPushes(task: Task)
    | LoopTestsFlag
    | LoopQuits
    | ThreadPushes(thread: Thread, task: Task)
    | ThreadSignals(thread: Thread)
    | ThreadQuits(thread: Thread)
    | ThreadSignalsQuit(thread: Thread)

  const EVENTFD_MAX: nat := 0xFFFF_FFFF_FFFF_FFFE

  /** A write of 1 to the non-blocking eventfd; at the maximum it fails and changes nothing. */
  function Signalled(counter: nat): nat { if counter < EVENTFD_MAX then counter + 1 else counter }

  function Pushed(s: State, task: Task): State {
    s.(pending := s.pending + [task], queued := s.queued + [task])
  }

  predicate Enabled(s: State, step: Step) {
    match step
    case Enter => s.pc.Entering?
    case TestQuit => s.pc.Testing?
    case PollReturns(woken) => s.pc.Polling? && (woken ==> s.counter > 0)
    case HandleRead => s.pc.Handling? && s.pc.woken
    case HandlersDone => s.pc.Handling? && !s.pc.woken && !s.own
    case Swap => s.pc.Swapping?
    case StartTask => s.pc.Running? && s.batch != [] && !s.own
    case BatchDone => s.pc.Running? && s.batch == [] && !s.own
    case ClearFlag => s.pc.Clearing?
    case LoopPushes(_) => (s.pc.Handling? || s.pc.Running?) && !s.own
    case LoopTestsFlag => s.own
    case LoopQuits => s.pc.Handling? || s.pc.Running?
    case ThreadPushes(t, _) => t !in s.pushers && t !in s.quitters
    case ThreadSignals(t) => t in s.pushers
    case ThreadQuits(t) => t !in s.pushers && t !in s.quitters
    case ThreadSignalsQuit(t) => t in s.quitters
  }

  function Apply(s: State, step: Step): State
    requires Enabled(s, step)
  {
    match step
    case Enter => s.(pc := Testing, quit := false)
    case TestQuit => s.(pc := if s.quit then Stopped else Polling)
    case PollReturns(woken) => s.(pc := Handling(woken), mark := |s.queued|)
    case HandleRead => s.(pc := Handling(false), counter := 0)
    case HandlersDone => s.(pc := Swapping, calling := true)
    case Swap => s.(pc := Running, batch := s.pending, pending := [], fence := |s.queued|)
    case StartTask => s.(batch := s.batch[1..], executed := s.executed + [s.batch[0]])
    case BatchDone => s.(pc := Clearing)
    case ClearFlag => s.(pc := Testing, calling := false)
    case LoopPushes(task) => Pushed(s, task).(own := true)
    case LoopTestsFlag => s.(own := false, counter := if s.calling then Signalled(s.counter) else s.counter)
    case LoopQuits => s.(quit := true)
    case ThreadPushes(t, task) => Pushed(s, task).(pushers := s.pushers + {t})
    case ThreadSignals(t) => s.(pushers := s.pushers - {t}, counter := Signalled(s.counter))
    case ThreadQuits(t) => s.(quit := true, quitters := s.quitters + {t})
    case ThreadSignalsQuit(t) => s.(quitters := s.quitters - {t}, counter := Signalled(s.counter))
  }

  ghost predicate Next(s: State, t: State) { exists step :: Enabled(s, step) && t == Apply(s, step) }

  /** loop() has been called; tasks may have been queued and quit() may have been called before. */
  predicate Start(s: State) {
    && s.pc.Entering? && !s.own && !s.calling && s.batch == []
    && s.queued == s.executed + s.pending && s.fence == |s.executed| && s.mark == 0
  }

  ghost predicate StepAt(b: seq<State>, i: nat) { i + 1 < |b| && Next(b[i], b[i + 1]) }

  ghost predicate Path(b: seq<State>) {
    b != [] && forall i: nat {:trigger StepAt(b, i)} :: i + 1 < |b| ==> StepAt(b, i)
  }

  ghost predicate Run(b: seq<State>) { Path(b) && Start(b[0]) }

  /** Someone has signalled the loop, or is about to. */
  predicate WakeupDue(s: State) { s.counter > 0 || s.pushers != {} }

  /** The loop thread is not left to sleep on a queued task. */
  predicate NoLostWakeup(s: State) { s.pc.Polling? && s.pending != [] ==> WakeupDue(s) }

  // ----- what every step keeps -----

  /** The parts of the state agree on which tasks have run; holds whatever Start allows. */
  predicate Consistent(s: State) {
    && s.queued == s.executed + s.batch + s.pending
    && s.fence == |s.executed + s.batch|
    && (s.batch != [] ==> s.pc.Running?)
    && (s.calling <==> s.pc.Swapping? || s.pc.Running? || s.pc.Clearing?)
    && (s.own ==> s.pc.Handling? || s.pc.Running?)
    && s.mark <= |s.queued|
    && (!s.pc.Handling? && !s.pc.Swapping? ==> s.mark <= s.fence)
    && (s.quit && s.pc.Polling? ==> s.counter > 0 || s.quitters != {})
  }

  /** From loop() to the first poll, and from the swap to the next, a non-empty queue has a wakeup on
      its way. */
  predicate Woken(s: State) {
    !s.pc.Handling? && !s.pc.Swapping? && !s.pc.Stopped? && s.pending != [] ==> WakeupDue(s) || s.own
  }

  lemma PushConsistent(s: State, t: State, task: Task)
    requires Consistent(s) && t == Pushed(s, task).(own := t.own, pushers := t.pushers)
    requires t.own ==> s.own || s.pc.Handling? || s.pc.Running?
    ensures Consistent(t)
  {
    assert t.queued == s.executed + s.batch + (s.pending + [task]);
  }

  lemma StartConsistent(s: State)
    requires Consistent(s) && Enabled(s, StartTask)
    ensures Consistent(Apply(s, StartTask))
  {
    assert s.executed + s.batch == s.executed + [s.batch[0]] + s.batch[1..];
  }

  lemma SwapConsistent(s: State)
    requires Consistent(s) && Enabled(s, Swap)
    ensures Consistent(Apply(s, Swap))
  {
    assert s.executed + [] + s.pending == s.executed + s.pending + [];
  }

  lemma StepConsistent(s: State, step: Step)
    requires Consistent(s) && Enabled(s, step)
    ensures Consistent(Apply(s, step))
  {
    match step
    case Swap => SwapConsistent(s);
    case StartTask => StartConsistent(s);
    case LoopPushes(task) => PushConsistent(s, Apply(s, step), task);
    case ThreadPushes(_, task) => PushConsistent(s, Apply(s, step), task);
    case _ =>
  }

  lemma StepWoken(s: State, step: Step)
    requires Consistent(s) && Woken(s) && Enabled(s, step)
    ensures Woken(Apply(s, step))
  {
    var t := Apply(s, step);
    match step
    case ThreadPushes(th, _) => assert th in t.pushers;
    case _ =>
  }

  lemma {:induction false} RunConsistent(b: seq<State>, i: nat)
    requires Run(b) && i < |b|
    ensures Consistent(b[i])
  {
    if i > 0 {
      RunConsistent(b, i - 1);
      assert StepAt(b, i - 1);
      var step :| Enabled(b[i - 1], step) && b[i] == Apply(b[i - 1], step);
      StepConsistent(b[i - 1], step);
    }
  }

  lemma {:induction false} RunWoken(b: seq<State>, i: nat)
    requires Run(b) && Woken(b[0]) && i < |b|
    ensures Woken(b[i])
  {
    if i > 0 {
      RunWoken(b, i - 1);
      RunConsistent(b, i - 1);
      assert StepAt(b, i - 1);
      var step :| Enabled(b[i - 1], step) && b[i] == Apply(b[i - 1], step);
      StepWoken(b[i - 1], step);
    }
  }

  /** The first steps of loop(), undisturbed, lead to poll. */
  lemma Entry(s: State) returns (b: seq<State>)
    requires s.pc.Entering?
    ensures Path(b) && b[0] == s && |b| == 3 && b[1] == Apply(s, Enter) && b[2] == Apply(b[1], TestQuit)
    ensures b[2].pc.Polling?
  {
    b := [s, Apply(s, Enter), Apply(Apply(s, Enter), TestQuit)];
    assert Enabled(s, Enter) && Enabled(b[1], TestQuit);
    assert StepAt(b, 0) && StepAt(b, 1);
  }

  // ----- the theorems -----

  /** No interleaving loses a wakeup, exactly when loop() is not entered with tasks that nobody
      signalled (tasks the loop thread queued before loop() are such). */
  lemma NoLostWakeupIff(s: State)
    requires Start(s)
    ensures (forall b, i {:trigger b[i]} :: Run(b) && b[0] == s && 0 <= i < |b| ==> NoLostWakeup(b[i]))
       <==> (s.pending == [] || WakeupDue(s))
  {
    if s.pending == [] || WakeupDue(s) {
      forall b, i | Run(b) && b[0] == s && 0 <= i < |b| ensures NoLostWakeup(b[i]) {
        RunWoken(b, i);
        RunConsistent(b, i);
      }
    } else {
      var b := Entry(s);
      assert !NoLostWakeup(b[2]);
    }
  }

  /** quit() from another thread is not slept through either. */
  lemma QuitIsNoticed(b: seq<State>, i: nat)
    requires Run(b) && i < |b| && b[i].pc.Polling? && b[i].quit
    ensures b[i].counter > 0 || b[i].quitters != {}
  {
    RunConsistent(b, i);
  }

  /** From a state with quit_ set the loop does not get past its next test, whatever anybody does. */
  ghost predicate SureToStop(s: State) {
    forall b: seq<State>, j: nat {:trigger StepAt(b, j)} ::
      Path(b) && b[0] == s && StepAt(b, j) && b[j].pc.Testing? ==> !b[j + 1].pc.Polling?
  }

  lemma {:induction false} QuitStays(b: seq<State>, j: nat)
    requires Path(b) && j < |b| && b[0].quit && !b[0].pc.Entering?
    ensures b[j].quit && !b[j].pc.Entering?
  {
    if j > 0 {
      QuitStays(b, j - 1);
      assert StepAt(b, j - 1);
    }
  }

  predicate IsQuit(step: Step) { step.ThreadQuits? || step.LoopQuits? }

  /** A quit() is heeded exactly if its store comes after loop() has cleared quit_. */
  lemma QuitHeededIff(s: State, step: Step)
    requires Enabled(s, step) && IsQuit(step)
    ensures SureToStop(Apply(s, step)) <==> !s.pc.Entering?
  {
    var t := Apply(s, step);
    if s.pc.Entering? {
      var b := Entry(t);
      assert StepAt(b, 1);
    } else {
      forall b: seq<State>, j: nat | Path(b) && b[0] == t && StepAt(b, j) && b[j].pc.Testing?
        ensures !b[j + 1].pc.Polling?
      {
        QuitStays(b, j);
      }
    }
  }

  /** Between two reads of the eventfd the loop is woken only if somebody signals: nothing else makes the
      counter positive. */
  lemma {:induction false} QuietAfterRead(b: seq<State>, i: nat, j: nat)
    requires Path(b) && i < j < |b| && Enabled(b[i], HandleRead) && b[i + 1] == Apply(b[i], HandleRead)
    requires forall k :: i < k < j ==> b[k].pushers <= b[k + 1].pushers && b[k].quitters <= b[k + 1].quitters
    requires forall k :: i < k < j ==> b[k].own ==> b[k + 1].own
    ensures b[j].counter == 0
  {
    if i + 1 < j {
      QuietAfterRead(b, i, j - 1);
      assert StepAt(b, j - 1);
    }
  }

  /** Tasks run at most once and in the order of the pushes, and none is dropped. */
  lemma ConservedInOrder(b: seq<State>, i: nat)
    requires Run(b) && i < |b|
    ensures b[i].executed + b[i].batch + b[i].pending == b[i].queued
    ensures b[i].executed <= b[i].queued
  {
    RunConsistent(b, i);
    assert b[i].queued == b[i].executed + (b[i].batch + b[i].pending);
  }

  /** A batch is fixed by the swap: until the batch is done no step adds to it, whatever is queued. */
  lemma BatchIsFixed(s: State, step: Step)
    requires Consistent(s) && s.pc.Running? && Enabled(s, step)
    ensures var t := Apply(s, step); t.executed + t.batch == s.executed + s.batch && t.fence == s.fence
  {
    if step.StartTask? {
      assert s.executed + s.batch == s.executed + [s.batch[0]] + s.batch[1..];
    }
  }

  lemma {:induction false} QueuedGrows(b: seq<State>, i: nat, j: nat)
    requires Run(b) && i <= j < |b|
    ensures b[i].queued <= b[j].queued
    decreases j
  {
    if i < j {
      QueuedGrows(b, i, j - 1);
      assert StepAt(b, j - 1);
    }
  }

  lemma {:induction false} MarkReached(b: seq<State>, i: nat, j: nat)
    requires Run(b) && i <= j < |b| && b[i].pc.Polling?
    ensures b[j].pc.Polling? || b[j].mark >= |b[i].queued|
    decreases j
  {
    if i < j {
      MarkReached(b, i, j - 1);
      QueuedGrows(b, i, j - 1);
      assert StepAt(b, j - 1);
    }
  }

  /** Whatever is queued while the loop thread is in poll has been run, all of it, when the loop
      next comes to its test of quit_: one pass of the loop is enough. */
  lemma OnePassSuffices(b: seq<State>, i: nat, j: nat)
    requires Run(b) && i <= j < |b| && b[i].pc.Polling? && b[j].pc.Testing?
    ensures b[i].queued <= b[j].executed
  {
    MarkReached(b, i, j);
    QueuedGrows(b, i, j);
    RunConsistent(b, j);
    assert b[j].executed == b[j].queued[..|b[j].executed|];
  }

  // ----- a task that is queued gets run -----

  predicate IsPush(step: Step) { step.ThreadPushes? || step.LoopPushes? }

  function TaskOf(step: Step): Task
    requires IsPush(step)
  {
    step.task
  }

  /** queueInLoop adds its task, and only that, behind all tasks queued so far; other steps add none. */
  lemma QueuedByPushes(s: State, step: Step)
    requires Enabled(s, step)
    ensures Apply(s, step).queued == s.queued + if IsPush(step) then [TaskOf(step)] else []
  {
  }

  /** A task queued at step `i` has been run, in its turn, once the loop has been in poll and come to its
      test of quit_ again. */
  lemma PushedTaskRuns(b: seq<State>, i: nat, step: Step, m: nat, j: nat)
    requires Run(b) && i < m <= j < |b| && Enabled(b[i], step) && b[i + 1] == Apply(b[i], step) && IsPush(step)
    requires b[m].pc.Polling? && b[j].pc.Testing?
    ensures |b[i].queued| < |b[j].executed| && b[j].executed[|b[i].queued|] == TaskOf(step)
  {
    QueuedByPushes(b[i], step);
    QueuedGrows(b, i + 1, m);
    OnePassSuffices(b, m, j);
  }

  /** If it was queued while the loop was in poll, the next test will do. */
  lemma PushedInPollRuns(b: seq<State>, i: nat, step: Step, j: nat)
    requires Run(b) && i < j < |b| && Enabled(b[i], step) && b[i + 1] == Apply(b[i], step) && IsPush(step)
    requires b[i].pc.Polling? && b[j].pc.Testing?
    ensures |b[i].queued| < |b[j].executed| && b[j].executed[|b[i].queued|] == TaskOf(step)
  {
    PushedTaskRuns(b, i, step, i + 1, j);
  }

  lemma {:induction false} SwapReached(b: seq<State>, i: nat, j: nat)
    requires Run(b) && i <= j < |b| && (b[i].pc.Handling? || b[i].pc.Swapping?)
    ensures b[j].pc.Handling? || b[j].pc.Swapping? || b[j].fence >= |b[i].queued|
    decreases j
  {
    if i < j {
      SwapReached(b, i, j - 1);
      QueuedGrows(b, i, j - 1);
      assert StepAt(b, j - 1);
      RunFence(b, i, j - 1);
    }
  }

  /** Once the swap has passed a mark it stays past it. */
  lemma {:induction false} RunFence(b: seq<State>, i: nat, j: nat)
    requires Run(b) && i <= j < |b|
    ensures b[i].fence <= b[j].fence <= |b[j].queued|
    decreases j
  {
    RunConsistent(b, j);
    if i < j {
      RunFence(b, i, j - 1);
      assert StepAt(b, j - 1);
    }
  }

  /** A task that a channel handler queues is run in the same pass ... */
  lemma PushedByHandlerRuns(b: seq<State>, i: nat, step: Step, j: nat)
    requires Run(b) && i < j < |b| && Enabled(b[i], step) && b[i + 1] == Apply(b[i], step) && IsPush(step)
    requires b[i].pc.Handling? && b[j].pc.Testing?
    ensures |b[i].queued| < |b[j].executed| && b[j].executed[|b[i].queued|] == TaskOf(step)
  {
    QueuedByPushes(b[i], step);
    SwapReached(b, i + 1, j);
    QueuedGrows(b, i + 1, j);
    RunConsistent(b, j);
    assert b[j].executed == b[j].queued[..|b[j].executed|];
  }

  /** ... and needs no wakeup: the loop thread signals itself only while it runs tasks. */
  lemma OwnSignals(b: seq<State>, i: nat)
    requires Run(b) && i + 1 < |b| && b[i].own && !b[i + 1].own
    ensures b[i + 1].counter == if b[i].pc.Running? then Signalled(b[i].counter) else b[i].counter
  {
    RunConsistent(b, i);
    assert StepAt(b, i);
  }

  // ----- and nothing keeps the loop from it -----

  lemma Joined(a: seq<State>, b: seq<State>) returns (r: seq<State>)
    requires Path(a) && Path(b) && a[|a| - 1] == b[0]
    ensures Path(r) && r[0] == a[0] && r[|r| - 1] == b[|b| - 1]
  {
    r := a + b[1..];
    forall i: nat | i + 1 < |r| ensures StepAt(r, i) {
      if i + 1 < |a| { assert StepAt(a, i); } else { assert StepAt(b, i + 1 - |a|); }
    }
  }

  lemma OneStep(s: State, step: Step) returns (b: seq<State>)
    requires Enabled(s, step)
    ensures Path(b) && b[0] == s && b[|b| - 1] == Apply(s, step)
  {
    b := [s, Apply(s, step)];
    assert StepAt(b, 0);
  }

  /** The rest of a batch can be run to its end. */
  lemma {:induction false} BatchRuns(s: State) returns (b: seq<State>)
    requires Consistent(s) && s.pc.Running? && !s.own
    ensures Path(b) && b[0] == s
    ensures b[|b| - 1] == s.(batch := [], executed := s.executed + s.batch)
    decreases |s.batch|
  {
    if s.batch == [] {
      b := [s];
      assert s.executed + [] == s.executed;
    } else {
      var t := Apply(s, StartTask);
      StepConsistent(s, StartTask);
      b := OneStep(s, StartTask);
      var c := BatchRuns(t);
      assert s.executed + s.batch == s.executed + [s.batch[0]] + s.batch[1..];
      b := Joined(b, c);
    }
  }

  /** From poll the loop thread can always get to its next test by itself, having run everything that
      was queued. */
  lemma PassPossible(s: State) returns (b: seq<State>)
    requires Consistent(s) && s.pc.Polling?
    ensures Path(b) && b[0] == s && b[|b| - 1].pc.Testing?
    ensures b[|b| - 1].executed == s.queued && b[|b| - 1].pending == []
  {
    var woken := s.counter > 0;
    var t := Apply(s, PollReturns(woken));
    b := OneStep(s, PollReturns(woken));
    if woken {
      var c := OneStep(t, HandleRead);
      b := Joined(b, c);
      t := Apply(t, HandleRead);
    }
    var c := OneStep(t, HandlersDone);
    b := Joined(b, c);
    t := Apply(t, HandlersDone);
    c := OneStep(t, Swap);
    b := Joined(b, c);
    t := Apply(t, Swap);
    assert Consistent(t);
    c := BatchRuns(t);
    b := Joined(b, c);
    t := t.(batch := [], executed := t.executed + t.batch);
    c := OneStep(t, BatchDone);
    b := Joined(b, c);
    t := Apply(t, BatchDone);
    c := OneStep(t, ClearFlag);
    b := Joined(b, c);
  }
}
