/** What every critical section keeps: the counters agree with the workers and no task is lost or run twice. */
module CounterInvariant {
  import opened Protocol

  /** `count` and `idle` agree with the workers; a destroyed pool has no sleeper left. */
  ghost predicate Counters(s: State) {
    && s.maxThread >= 1
    && s.count == Count(s.workers, Live) <= s.maxThread
    && s.idle == Count(s.workers, InWait)
    && (s.quit <==> !s.destroyer.Outside?)
    && (s.quit ==> Count(s.workers, Asleep) == 0)
    && (s.destroyer.Returned? ==> s.count == 0)
  }

  function Occurrences(tasks: seq<Task>, x: Task): nat {
    if tasks == [] then 0
    else Occurrences(tasks[..|tasks| - 1], x) + if tasks[|tasks| - 1] == x then 1 else 0
  }

  lemma {:induction false} OccurrencesConcat(a: seq<Task>, b: seq<Task>, x: Task)
    ensures Occurrences(a + b, x) == Occurrences(a, x) + Occurrences(b, x)
  {
    if b == [] {
      assert a + b == a;
    } else {
      assert (a + b)[..|a + b| - 1] == a + b[..|b| - 1];
      OccurrencesConcat(a, b[..|b| - 1], x);
    }
  }

  lemma OccurrencesAppend(a: seq<Task>, y: Task, x: Task)
    ensures Occurrences(a + [y], x) == Occurrences(a, x) + if x == y then 1 else 0
  {
    assert (a + [y])[..|a|] == a;
  }

  lemma {:induction false} OccurrencesMultiset(a: seq<Task>, x: Task)
    ensures Occurrences(a, x) == multiset(a)[x]
  {
    if a != [] {
      OccurrencesMultiset(a[..|a| - 1], x);
      assert a == a[..|a| - 1] + [a[|a| - 1]];
    }
  }

  /** Tasks start in the order of submission. */
  ghost predicate InOrder(s: State) {
    s.submitted == s.started + s.queue
  }

  /** A started task is in flight or completed, never both. */
  ghost predicate Balanced(s: State, x: Task) {
    Occurrences(s.started, x) == Count(s.workers, Runs(x)) + Occurrences(s.completed, x)
  }

  ghost predicate Inv(s: State) {
    Counters(s) && InOrder(s) && forall x :: Balanced(s, x)
  }

  /** A worker's round overwrites its phase. */
  lemma PhaseForgotten(s: State, w: nat, p: Phase, timedOut: bool, t: Waiter)
    requires w < |s.workers|
    ensures Attempt(s.(workers := s.workers[w := p]), w, timedOut, t) == Attempt(s, w, timedOut, t)
    ensures Leave(s.(workers := s.workers[w := p]), w, timedOut, t) == Leave(s, w, timedOut, t)
  {
    assert s.workers[w := p][w := Exited] == s.workers[w := Exited];
    assert s.workers[w := p][w := LoopTop] == s.workers[w := LoopTop];
    assert s.workers[w := p][w := Blocked] == s.workers[w := Blocked];
    assert s.queue != [] ==>
        s.workers[w := p][w := Running(s.queue[0], timedOut)] == s.workers[w := Running(s.queue[0], timedOut)];
  }

  // ----- counters -----

  lemma SetCounters(ws: seq<Phase>, i: nat, p: Phase)
    requires i < |ws|
    ensures Count(ws[i := p], Live) == Count(ws, Live) - Bit(Live, ws[i]) + Bit(Live, p)
    ensures Count(ws[i := p], InWait) == Count(ws, InWait) - Bit(InWait, ws[i]) + Bit(InWait, p)
    ensures Count(ws[i := p], Asleep) == Count(ws, Asleep) - Bit(Asleep, ws[i]) + Bit(Asleep, p)
  {
    CountUpdate(ws, i, p, Live);
    CountUpdate(ws, i, p, InWait);
    CountUpdate(ws, i, p, Asleep);
  }

  lemma SignalCounters(s: State, t: Waiter)
    requires Counters(s) && ValidTarget(s.workers, s.destroyer, t)
    ensures Counters(Signal(s, t))
  {
    if t.Worker? { SetCounters(s.workers, t.id, Woken); }
  }

  lemma LeaveCounters(s: State, w: nat, timedOut: bool, t: Waiter)
    requires Counters(s) && w < |s.workers| && s.workers[w].LoopTop?
    requires ValidTarget(s.workers[w := Exited], s.destroyer, t)
    ensures Counters(Leave(s, w, timedOut, t))
  {
    SetCounters(s.workers, w, Exited);
    SetCounters(s.workers, w, LoopTop);
    CountPositive(s.workers, Live);
    SignalCounters(s.(count := s.count - 1, workers := s.workers[w := Exited]), t);
  }

  lemma StopWaitCounters(s: State, w: nat, timedOut: bool, t: Waiter)
    requires Counters(s) && w < |s.workers| && s.workers[w].Woken?
    requires ValidTarget(s.workers[w := Exited], s.destroyer, t)
    ensures Counters(Leave(s.(idle := s.idle - 1), w, timedOut, t))
  {
    var r := s.(idle := s.idle - 1);
    SetCounters(s.workers, w, LoopTop);
    assert s.workers[w := LoopTop][w := Exited] == s.workers[w := Exited];
    LeaveCounters(r.(workers := s.workers[w := LoopTop]), w, timedOut, t);
    PhaseForgotten(r, w, LoopTop, timedOut, t);
  }

  lemma AttemptCounters(s: State, w: nat, timedOut: bool, t: Waiter)
    requires Counters(s) && w < |s.workers| && s.workers[w].Woken?
    requires ValidTarget(s.workers[w := Exited], s.destroyer, t)
    ensures Counters(Attempt(s, w, timedOut, t))
  {
    if s.queue != [] {
      SetCounters(s.workers, w, Running(s.queue[0], timedOut));
    } else if !s.quit && !timedOut {
      SetCounters(s.workers, w, Blocked);
    } else {
      StopWaitCounters(s, w, timedOut, t);
    }
  }

  /** A worker counted as idle does the same round from any phase. */
  lemma RoundCounters(s: State, w: nat, timedOut: bool, t: Waiter)
    requires w < |s.workers| && Counters(s.(workers := s.workers[w := Woken]))
    requires ValidTarget(s.workers[w := Exited], s.destroyer, t)
    ensures Counters(Attempt(s, w, timedOut, t))
  {
    assert s.workers[w := Woken][w := Exited] == s.workers[w := Exited];
    AttemptCounters(s.(workers := s.workers[w := Woken]), w, timedOut, t);
    PhaseForgotten(s, w, Woken, timedOut, t);
  }

  lemma AddCounters(s: State, task: Task, t: Waiter)
    requires Counters(s) && Enabled(s, Add(task, t))
    ensures Counters(Apply(s, Add(task, t)))
  {
    SignalCounters(s.(queue := s.queue + [task], submitted := s.submitted + [task]), t);
    CountAppend(s.workers, LoopTop, Live);
    CountAppend(s.workers, LoopTop, InWait);
    CountAppend(s.workers, LoopTop, Asleep);
  }

  lemma DestroyCounters(s: State)
    requires Counters(s) && Enabled(s, Destroy)
    ensures Counters(Apply(s, Destroy))
  {
    CountSplit(s.workers);
    CountWakeAll(s.workers, Live);
    CountWakeAll(s.workers, InWait);
    CountWakeAll(s.workers, Asleep);
  }

  lemma FinishCounters(s: State, w: nat, t: Waiter)
    requires Counters(s) && Enabled(s, Finish(w, t))
    ensures Counters(Apply(s, Finish(w, t)))
  {
    var done := s.(completed := s.completed + [s.workers[w].task]);
    SetCounters(s.workers, w, LoopTop);
    assert s.workers[w := LoopTop][w := Exited] == s.workers[w := Exited];
    LeaveCounters(done.(workers := s.workers[w := LoopTop]), w, s.workers[w].timedOut, t);
    PhaseForgotten(done, w, LoopTop, s.workers[w].timedOut, t);
  }

  lemma EnterCounters(s: State, w: nat, t: Waiter)
    requires Counters(s) && Enabled(s, Enter(w, t))
    ensures Counters(Apply(s, Enter(w, t)))
  {
    var r := s.(idle := s.idle + 1);
    SetCounters(s.workers, w, Woken);
    assert Counters(r.(workers := s.workers[w := Woken]));
    RoundCounters(r, w, false, t);
  }

  /** A worker inside the wait stays counted as idle whatever the condition variable does to it. */
  lemma WaitCounters(s: State, w: nat, p: Phase)
    requires Counters(s) && w < |s.workers| && Is(InWait, s.workers[w]) && (p.Woken? || p.Expired?)
    ensures Counters(s.(workers := s.workers[w := p]))
  {
    SetCounters(s.workers, w, p);
  }

  lemma StepCounters(s: State, e: Event)
    requires Counters(s) && Enabled(s, e)
    ensures Counters(Apply(s, e))
  {
    match e
    case Add(task, t) => AddCounters(s, task, t);
    case Enter(w, t) => EnterCounters(s, w, t);
    case Resume(w, t) => AttemptCounters(s, w, false, t);
    case Late(w, t) => WaitCounters(s, w, Woken); RoundCounters(s, w, true, t);
    case Timeout(w, t) => WaitCounters(s, w, Woken); RoundCounters(s, w, true, t);
    case Finish(w, t) => FinishCounters(s, w, t);
    case Expire(w) => WaitCounters(s, w, Expired);
    case Spurious(w) => WaitCounters(s, w, Woken);
    case Destroy => DestroyCounters(s);
    case DestroyerSpurious =>
    case DestroyerTest =>
  }

  // ----- tasks -----

  lemma SignalRuns(s: State, t: Waiter, x: Task)
    requires ValidTarget(s.workers, s.destroyer, t)
    ensures Count(Signal(s, t).workers, Runs(x)) == Count(s.workers, Runs(x))
    ensures Signal(s, t).started == s.started && Signal(s, t).completed == s.completed
  {
    if t.Worker? { CountUpdate(s.workers, t.id, Woken, Runs(x)); }
  }

  /** A round that ends without a task leaves the worker without one. */
  lemma LeaveRuns(s: State, w: nat, timedOut: bool, t: Waiter, x: Task)
    requires w < |s.workers| && ValidTarget(s.workers[w := Exited], s.destroyer, t)
    ensures var r := Leave(s, w, timedOut, t);
            && Count(r.workers, Runs(x)) == Count(s.workers, Runs(x)) - Bit(Runs(x), s.workers[w])
            && r.started == s.started && r.completed == s.completed
  {
    CountUpdate(s.workers, w, Exited, Runs(x));
    CountUpdate(s.workers, w, LoopTop, Runs(x));
    SignalRuns(s.(count := s.count - 1, workers := s.workers[w := Exited]), t, x);
  }

  lemma TakeBalanced(s: State, w: nat, timedOut: bool, t: Waiter, x: Task)
    requires Balanced(s, x) && w < |s.workers| && !s.workers[w].Running? && s.queue != []
    ensures Balanced(Attempt(s, w, timedOut, t), x)
  {
    CountUpdate(s.workers, w, Running(s.queue[0], timedOut), Runs(x));
    OccurrencesAppend(s.started, s.queue[0], x);
  }

  lemma AttemptBalanced(s: State, w: nat, timedOut: bool, t: Waiter, x: Task)
    requires Balanced(s, x) && w < |s.workers| && !s.workers[w].Running?
    requires ValidTarget(s.workers[w := Exited], s.destroyer, t)
    ensures Balanced(Attempt(s, w, timedOut, t), x)
  {
    if s.queue != [] {
      TakeBalanced(s, w, timedOut, t, x);
    } else if !s.quit && !timedOut {
      CountUpdate(s.workers, w, Blocked, Runs(x));
    } else {
      LeaveRuns(s.(idle := s.idle - 1), w, timedOut, t, x);
    }
  }

  lemma FinishBalanced(s: State, w: nat, timedOut: bool, t: Waiter, x: Task)
    requires Balanced(s, x) && w < |s.workers| && s.workers[w].Running?
    requires ValidTarget(s.workers[w := Exited], s.destroyer, t)
    ensures Balanced(Leave(s.(completed := s.completed + [s.workers[w].task]), w, timedOut, t), x)
  {
    var task := s.workers[w].task;
    OccurrencesAppend(s.completed, task, x);
    LeaveRuns(s.(completed := s.completed + [task]), w, timedOut, t, x);
  }

  lemma AddBalanced(s: State, task: Task, t: Waiter, x: Task)
    requires Balanced(s, x) && Enabled(s, Add(task, t))
    ensures Balanced(Apply(s, Add(task, t)), x)
  {
    SignalRuns(s.(queue := s.queue + [task], submitted := s.submitted + [task]), t, x);
    CountAppend(s.workers, LoopTop, Runs(x));
  }

  lemma EnterBalanced(s: State, w: nat, t: Waiter, x: Task)
    requires Balanced(s, x) && Enabled(s, Enter(w, t))
    ensures Balanced(Apply(s, Enter(w, t)), x)
  {
    AttemptBalanced(s.(idle := s.idle + 1), w, false, t, x);
  }

  lemma WaitBalanced(s: State, w: nat, p: Phase, x: Task)
    requires Balanced(s, x) && w < |s.workers| && !s.workers[w].Running? && !p.Running?
    ensures Balanced(s.(workers := s.workers[w := p]), x)
  {
    CountUpdate(s.workers, w, p, Runs(x));
  }

  lemma DestroyBalanced(s: State, x: Task)
    requires Balanced(s, x)
    ensures Balanced(StartDestroy(s), x)
  {
    CountWakeAll(s.workers, Runs(x));
  }

  lemma StepBalanced(s: State, e: Event, x: Task)
    requires Balanced(s, x) && Enabled(s, e)
    ensures Balanced(Apply(s, e), x)
  {
    match e
    case Add(task, t) => AddBalanced(s, task, t, x);
    case Enter(w, t) => EnterBalanced(s, w, t, x);
    case Resume(w, t) => AttemptBalanced(s, w, false, t, x);
    case Late(w, t) => AttemptBalanced(s, w, true, t, x);
    case Timeout(w, t) => AttemptBalanced(s, w, true, t, x);
    case Finish(w, t) => FinishBalanced(s, w, s.workers[w].timedOut, t, x);
    case Expire(w) => WaitBalanced(s, w, Expired, x);
    case Spurious(w) => WaitBalanced(s, w, Woken, x);
    case Destroy => DestroyBalanced(s, x);
    case DestroyerSpurious =>
    case DestroyerTest =>
  }

  lemma AttemptInOrder(s: State, w: nat, timedOut: bool, t: Waiter)
    requires InOrder(s) && w < |s.workers|
    ensures InOrder(Attempt(s, w, timedOut, t))
  {
    if s.queue != [] {
      assert s.started + s.queue == s.started + [s.queue[0]] + s.queue[1..];
    }
  }

  lemma StepInOrder(s: State, e: Event)
    requires InOrder(s) && Enabled(s, e)
    ensures InOrder(Apply(s, e))
  {
    match e
    case Add(task, t) => assert s.started + s.queue + [task] == s.started + (s.queue + [task]);
    case Enter(w, t) => AttemptInOrder(s.(idle := s.idle + 1), w, false, t);
    case Resume(w, t) => AttemptInOrder(s, w, false, t);
    case Late(w, t) => AttemptInOrder(s, w, true, t);
    case Timeout(w, t) => AttemptInOrder(s, w, true, t);
    case Finish(_, _) =>
    case Expire(_) =>
    case Spurious(_) =>
    case Destroy =>
    case DestroyerSpurious =>
    case DestroyerTest =>
  }

  lemma StepKeeps(s: State, e: Event)
    requires Inv(s) && Enabled(s, e)
    ensures Inv(Apply(s, e))
  {
    StepCounters(s, e);
    StepInOrder(s, e);
    forall x ensures Balanced(Apply(s, e), x) { StepBalanced(s, e, x); }
  }

  // ----- runs -----

  lemma {:induction false} RunKeeps(s: State, es: seq<Event>)
    requires Inv(s) && IsRun(s, es)
    ensures Inv(After(s, es))
    decreases |es|
  {
    if es != [] {
      StepKeeps(s, es[0]);
      RunKeeps(Apply(s, es[0]), es[1..]);
    }
  }

  lemma {:induction false} MaxThreadConstant(s: State, es: seq<Event>)
    requires IsRun(s, es)
    ensures After(s, es).maxThread == s.maxThread
    decreases |es|
  {
    if es != [] { MaxThreadConstant(Apply(s, es[0]), es[1..]); }
  }

  /** In every state of every run: counters agree, FIFO order holds, and no task is lost, duplicated or invented. */
  lemma CountersAgree(maxThread: int, es: seq<Event>)
    requires maxThread >= 1 && IsRun(Init(maxThread), es)
    ensures var s := After(Init(maxThread), es);
            && s.count == Count(s.workers, Live)
            && s.idle == Count(s.workers, InWait)
            && 0 <= s.idle <= s.count <= s.maxThread == maxThread
            && s.submitted == s.started + s.queue
            && forall x :: multiset(s.submitted)[x] ==
                 multiset(s.queue)[x] + Count(s.workers, Runs(x)) + multiset(s.completed)[x]
  {
    RunKeeps(Init(maxThread), es);
    MaxThreadConstant(Init(maxThread), es);
    var s := After(Init(maxThread), es);
    CountSplit(s.workers);
    forall x ensures multiset(s.submitted)[x] ==
                     multiset(s.queue)[x] + Count(s.workers, Runs(x)) + multiset(s.completed)[x] {
      assert Balanced(s, x);
      OccurrencesConcat(s.started, s.queue, x);
      OccurrencesMultiset(s.submitted, x);
      OccurrencesMultiset(s.queue, x);
      OccurrencesMultiset(s.completed, x);
    }
  }
}
