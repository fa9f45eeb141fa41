/**
 Is every queued task still going to be looked at? Exactly one kind of event can spoil it, an Add
 whose signal reaches nobody, and this module says exactly when that happens.
 */
module Service {
  import opened Protocol
  import opened CounterInvariant

  /**
   Some worker will come back to the queue before it leaves, or the workers whose deadline has
   passed suffice: each of them still takes one task when it gets the mutex.
   */
  ghost predicate Served(s: State) {
    Count(s.workers, Carrier) > 0 || |s.queue| <= Count(s.workers, Tardy)
  }

  /** Holds in every reachable state: nobody sleeps while a task is stranded. */
  ghost predicate Sound(s: State) {
    Counters(s) && (Served(s) || Count(s.workers, Asleep) == 0)
  }

  /** What an Add needs: the guard `idle > 0` must not be met by expired waiters only. */
  ghost predicate AddSafe(s: State) {
    || Count(s.workers, Carrier) > 0
    || Count(s.workers, Asleep) > 0
    || (s.idle == 0 && s.count < s.maxThread)
    || |s.queue| < Count(s.workers, Tardy)
  }

  lemma SetServed(ws: seq<Phase>, i: nat, p: Phase)
    requires i < |ws|
    ensures Count(ws[i := p], Carrier) == Count(ws, Carrier) - Bit(Carrier, ws[i]) + Bit(Carrier, p)
    ensures Count(ws[i := p], Tardy) == Count(ws, Tardy) - Bit(Tardy, ws[i]) + Bit(Tardy, p)
    ensures Count(ws[i := p], Asleep) == Count(ws, Asleep) - Bit(Asleep, ws[i]) + Bit(Asleep, p)
  {
    CountUpdate(ws, i, p, Carrier);
    CountUpdate(ws, i, p, Tardy);
    CountUpdate(ws, i, p, Asleep);
  }

  lemma SignalServed(s: State, t: Waiter)
    requires ValidTarget(s.workers, s.destroyer, t)
    ensures Served(s) ==> Served(Signal(s, t))
    ensures Count(s.workers, Asleep) == 0 ==> Signal(s, t).workers == s.workers
    ensures Count(s.workers, Asleep) > 0 && !t.Destroyer? ==> Count(Signal(s, t).workers, Carrier) > 0
  {
    CountPositive(s.workers, Asleep);
    if t.Worker? { SetServed(s.workers, t.id, Woken); }
  }

  /** Leaving with an empty queue keeps it served, whoever is signalled. */
  lemma LeaveEmpty(s: State, w: nat, timedOut: bool, t: Waiter)
    requires w < |s.workers| && s.queue == []
    ensures Served(Leave(s, w, timedOut, t))
  {
  }

  /** A round that starts with no deadline passed ends with the worker still carrying, or with an empty queue. */
  lemma FreshRound(s: State, w: nat, t: Waiter)
    requires w < |s.workers|
    ensures Served(Attempt(s, w, false, t))
  {
    if s.queue != [] {
      var ws := s.workers[w := Running(s.queue[0], false)];
      CountPositive(ws, Carrier);
      assert Is(Carrier, ws[w]);
    }
  }

  lemma LateRound(s: State, w: nat, t: Waiter)
    requires Sound(s) && w < |s.workers| && (s.workers[w].Expired? || s.workers[w].Blocked?)
    ensures Served(Attempt(s, w, true, t)) <==> Served(s)
    ensures Served(s) || Count(Attempt(s, w, true, t).workers, Asleep) == 0
  {
    CountPositive(s.workers, Asleep);
    CountPositive(s.workers, Tardy);
    if s.queue != [] { SetServed(s.workers, w, Running(s.queue[0], true)); }
  }

  lemma FinishServed(s: State, w: nat, t: Waiter)
    requires Sound(s) && Enabled(s, Finish(w, t))
    ensures Served(Apply(s, Finish(w, t))) <==> Served(s)
    ensures Served(s) || Count(Apply(s, Finish(w, t)).workers, Asleep) == 0
  {
    var done := s.(completed := s.completed + [s.workers[w].task]);
    if s.queue == [] {
      LeaveEmpty(done, w, s.workers[w].timedOut, t);
    } else {
      CountPositive(s.workers, Carrier);
      SetServed(s.workers, w, LoopTop);
      SetServed(s.workers, w, Exited);
    }
  }

  lemma DestroyServed(s: State)
    requires Sound(s) && Enabled(s, Destroy)
    ensures Served(Apply(s, Destroy)) <==> Served(s)
  {
    CountWakeAll(s.workers, Carrier);
    CountWakeAll(s.workers, Tardy);
  }

  lemma WaitServed(s: State, w: nat, p: Phase)
    requires Sound(s) && w < |s.workers| && s.workers[w].Blocked? && (p.Woken? || p.Expired?)
    ensures Served(s) && Served(s.(workers := s.workers[w := p]))
  {
    CountPositive(s.workers, Asleep);
    SetServed(s.workers, w, p);
  }

  /** Apart from Add, no event strands a task and none rescues a stranded one. */
  lemma OnlyAddStrands(s: State, e: Event)
    requires Sound(s) && Enabled(s, e) && !e.Add?
    ensures Served(Apply(s, e)) <==> Served(s)
    ensures Sound(Apply(s, e))
  {
    StepCounters(s, e);
    match e
    case Enter(w, t) => CountPositive(s.workers, Carrier); FreshRound(s.(idle := s.idle + 1), w, t);
    case Resume(w, t) => CountPositive(s.workers, Carrier); FreshRound(s, w, t);
    case Late(w, t) => LateRound(s, w, t);
    case Timeout(w, t) => LateRound(s, w, t);
    case Finish(w, t) => FinishServed(s, w, t);
    case Expire(w) => WaitServed(s, w, Expired);
    case Spurious(w) => WaitServed(s, w, Woken);
    case Destroy => DestroyServed(s); CountWakeAll(s.workers, Asleep);
    case DestroyerSpurious =>
    case DestroyerTest =>
  }

  lemma SignallingAdd(s: State, task: Task, t: Waiter)
    requires Sound(s) && Enabled(s, Add(task, t)) && s.idle > 0
    ensures Served(Apply(s, Add(task, t))) <==> AddSafe(s)
    ensures Served(Apply(s, Add(task, t))) || Count(Apply(s, Add(task, t)).workers, Asleep) == 0
  {
    CountPositive(s.workers, Asleep);
    var q := s.(queue := s.queue + [task], submitted := s.submitted + [task]);
    SignalServed(q, t);
    if t.Worker? { CountUpdate(s.workers, t.id, Woken, Carrier); }
  }

  lemma CreatingAdd(s: State, task: Task, t: Waiter)
    requires Sound(s) && Enabled(s, Add(task, t)) && s.idle == 0
    ensures Served(Apply(s, Add(task, t))) <==> AddSafe(s)
    ensures Served(Apply(s, Add(task, t))) || Count(Apply(s, Add(task, t)).workers, Asleep) == 0
  {
    CountSplit(s.workers);
    CountAppend(s.workers, LoopTop, Carrier);
  }

  /** An Add leaves the queue served exactly when it is safe; an unsafe one strands a task. */
  lemma AddServedIff(s: State, task: Task, t: Waiter)
    requires Sound(s) && Enabled(s, Add(task, t))
    ensures Served(Apply(s, Add(task, t))) <==> AddSafe(s)
    ensures Sound(Apply(s, Add(task, t)))
  {
    StepCounters(s, Add(task, t));
    if s.idle > 0 { SignallingAdd(s, task, t); } else { CreatingAdd(s, task, t); }
  }

  lemma {:induction false} RunSound(s: State, es: seq<Event>)
    requires Sound(s) && IsRun(s, es)
    ensures Sound(After(s, es))
    ensures (forall e <- es :: !e.Add?) ==> (Served(After(s, es)) <==> Served(s))
    decreases |es|
  {
    if es != [] {
      if es[0].Add? { AddServedIff(s, es[0].task, es[0].t); } else { OnlyAddStrands(s, es[0]); }
      RunSound(Apply(s, es[0]), es[1..]);
    }
  }

  // ----- runs in which a passed deadline and taking the mutex are one step -----

  /** `Timeout` is a passed deadline with nothing in between. */
  lemma TimeoutIsExpireThenLate(s: State, w: nat, t: Waiter)
    requires Enabled(s, Timeout(w, t))
    ensures Enabled(s, Expire(w)) && Enabled(Apply(s, Expire(w)), Late(w, t))
    ensures Apply(Apply(s, Expire(w)), Late(w, t)) == Apply(s, Timeout(w, t))
  {
    assert s.workers[w := Expired][w := Exited] == s.workers[w := Exited];
    PhaseForgotten(s, w, Expired, true, t);
  }

  /** Nobody is between its deadline and the mutex, and fewer than maxThread workers are on their last task. */
  ghost predicate Prompt(s: State) {
    && Sound(s) && Served(s)
    && Count(s.workers, Tardy) == 0
    && Count(s.workers, LastTask) < s.maxThread
  }

  lemma SetCounts(ws: seq<Phase>, i: nat, p: Phase)
    requires i < |ws|
    ensures Count(ws[i := p], Tardy) == Count(ws, Tardy) - Bit(Tardy, ws[i]) + Bit(Tardy, p)
    ensures Count(ws[i := p], LastTask) == Count(ws, LastTask) - Bit(LastTask, ws[i]) + Bit(LastTask, p)
  {
    CountUpdate(ws, i, p, Tardy);
    CountUpdate(ws, i, p, LastTask);
  }

  /** A signal makes nobody tardy and starts no task. */
  lemma SignalCounts(s: State, t: Waiter)
    ensures Count(Signal(s, t).workers, Tardy) <= Count(s.workers, Tardy)
    ensures Count(Signal(s, t).workers, LastTask) <= Count(s.workers, LastTask)
  {
    if t.Worker? && t.id < |s.workers| { SetCounts(s.workers, t.id, Woken); }
  }

  lemma LateCounts(s: State, w: nat, t: Waiter)
    requires Prompt(s) && w < |s.workers| && s.workers[w].Blocked?
    requires Counters(Attempt(s, w, true, t))
    ensures Count(Attempt(s, w, true, t).workers, Tardy) == 0
    ensures Count(Attempt(s, w, true, t).workers, LastTask) < s.maxThread
  {
    CountSplit(s.workers);
    CountPositive(s.workers, Asleep);
    if s.queue != [] {
      SetCounts(s.workers, w, Running(s.queue[0], true));
    } else {
      SetCounts(s.workers, w, Exited);
      SignalCounts(s.(count := s.count - 1, workers := s.workers[w := Exited]), t);
    }
  }

  lemma LeaveCounts(s: State, w: nat, timedOut: bool, t: Waiter)
    requires w < |s.workers|
    ensures Count(Leave(s, w, timedOut, t).workers, Tardy) <= Count(s.workers, Tardy)
    ensures Count(Leave(s, w, timedOut, t).workers, LastTask) <= Count(s.workers, LastTask)
  {
    SetCounts(s.workers, w, Exited);
    SetCounts(s.workers, w, LoopTop);
    SignalCounts(s.(count := s.count - 1, workers := s.workers[w := Exited]), t);
  }

  lemma FreshCounts(s: State, w: nat, t: Waiter)
    requires w < |s.workers|
    ensures Count(Attempt(s, w, false, t).workers, Tardy) <= Count(s.workers, Tardy)
    ensures Count(Attempt(s, w, false, t).workers, LastTask) <= Count(s.workers, LastTask)
  {
    if s.queue != [] {
      SetCounts(s.workers, w, Running(s.queue[0], false));
    } else if !s.quit {
      SetCounts(s.workers, w, Blocked);
    } else {
      LeaveCounts(s.(idle := s.idle - 1), w, false, t);
    }
  }

  /** With nobody tardy, a worker inside the wait sleeps or comes back, and not every worker is on its last task. */
  lemma PromptAddsAreSafe(s: State)
    requires Prompt(s)
    ensures AddSafe(s)
  {
    CountSplit(s.workers);
  }

  lemma AddCounts(s: State, task: Task, t: Waiter)
    ensures Count(AddTask(s, task, t).workers, Tardy) <= Count(s.workers, Tardy)
    ensures Count(AddTask(s, task, t).workers, LastTask) <= Count(s.workers, LastTask)
  {
    var q := s.(queue := s.queue + [task], submitted := s.submitted + [task]);
    if s.idle > 0 {
      SignalCounts(q, t);
      assert AddTask(s, task, t) == Signal(q, t);
    } else if s.count < s.maxThread {
      CountAppend(s.workers, LoopTop, Tardy);
      CountAppend(s.workers, LoopTop, LastTask);
    }
  }

  lemma AddPrompt(s: State, task: Task, t: Waiter)
    requires Prompt(s) && Enabled(s, Add(task, t))
    ensures Prompt(Apply(s, Add(task, t)))
  {
    PromptAddsAreSafe(s);
    AddServedIff(s, task, t);
    AddCounts(s, task, t);
    MaxThreadConstant(s, [Add(task, t)]);
    assert After(s, [Add(task, t)]) == Apply(s, Add(task, t));
  }

  lemma FinishCounts(s: State, w: nat, t: Waiter)
    requires Enabled(s, Finish(w, t))
    ensures Count(Apply(s, Finish(w, t)).workers, Tardy) <= Count(s.workers, Tardy)
    ensures Count(Apply(s, Finish(w, t)).workers, LastTask) <= Count(s.workers, LastTask)
  {
    LeaveCounts(s.(completed := s.completed + [s.workers[w].task]), w, s.workers[w].timedOut, t);
  }

  lemma DestroyCounts(s: State)
    ensures Count(StartDestroy(s).workers, Tardy) == Count(s.workers, Tardy)
    ensures Count(StartDestroy(s).workers, LastTask) == Count(s.workers, LastTask)
  {
    CountWakeAll(s.workers, Tardy);
    CountWakeAll(s.workers, LastTask);
  }

  lemma StepCounts(s: State, e: Event)
    requires Prompt(s) && Enabled(s, e) && !e.Expire? && !e.Add? && Counters(Apply(s, e))
    ensures Count(Apply(s, e).workers, Tardy) == 0
    ensures Count(Apply(s, e).workers, LastTask) < s.maxThread
  {
    match e
    case Enter(w, t) => FreshCounts(s.(idle := s.idle + 1), w, t);
    case Resume(w, t) => FreshCounts(s, w, t);
    case Late(w, t) => CountPositive(s.workers, Tardy);
    case Timeout(w, t) => LateCounts(s, w, t);
    case Finish(w, t) => FinishCounts(s, w, t);
    case Spurious(w) => SetCounts(s.workers, w, Woken);
    case Destroy => DestroyCounts(s);
    case DestroyerSpurious =>
    case DestroyerTest =>
  }

  lemma StepPrompt(s: State, e: Event)
    requires Prompt(s) && Enabled(s, e) && !e.Expire?
    ensures Prompt(Apply(s, e))
  {
    if e.Add? {
      AddPrompt(s, e.task, e.t);
    } else {
      OnlyAddStrands(s, e);
      StepCounts(s, e);
      MaxThreadConstant(s, [e]);
      assert After(s, [e]) == Apply(s, e);
    }
  }

  lemma {:induction false} RunPrompt(s: State, es: seq<Event>)
    requires Prompt(s) && IsRun(s, es) && forall e <- es :: !e.Expire?
    ensures Prompt(After(s, es))
    decreases |es|
  {
    if es != [] {
      StepPrompt(s, es[0]);
      RunPrompt(Apply(s, es[0]), es[1..]);
    }
  }

  /**
   When no deadline passes unnoticed, no run strands a task: a non-empty queue always has a live
   worker that is neither asleep nor on its last task. Fewer than `maxThread` workers are on theirs.
   */
  lemma NoStrandedTask(maxThread: int, es: seq<Event>)
    requires maxThread >= 1 && IsRun(Init(maxThread), es) && forall e <- es :: !e.Expire?
    ensures var s := After(Init(maxThread), es);
            && (s.queue != [] ==> exists w :: 0 <= w < |s.workers| && Is(Carrier, s.workers[w]))
            && Count(s.workers, LastTask) < maxThread
  {
    RunPrompt(Init(maxThread), es);
    MaxThreadConstant(Init(maxThread), es);
    CountPositive(After(Init(maxThread), es).workers, Carrier);
  }

  /** Every Add of the run was safe when it was made. */
  ghost predicate AddsSafe(s: State, es: seq<Event>)
    requires IsRun(s, es)
    decreases |es|
  {
    es == [] || ((es[0].Add? ==> AddSafe(s)) && AddsSafe(Apply(s, es[0]), es[1..]))
  }

  ghost predicate ServedThroughout(s: State, es: seq<Event>)
    requires IsRun(s, es)
    decreases |es|
  {
    Served(s) && (es == [] || ServedThroughout(Apply(s, es[0]), es[1..]))
  }

  /** With no hypothesis on deadlines: a run strands no task exactly when each of its Adds was safe. */
  lemma {:induction false} NothingStrandedIff(s: State, es: seq<Event>)
    requires Sound(s) && Served(s) && IsRun(s, es)
    ensures ServedThroughout(s, es) <==> AddsSafe(s, es)
    decreases |es|
  {
    if es != [] {
      var s1 := Apply(s, es[0]);
      if es[0].Add? { AddServedIff(s, es[0].task, es[0].t); } else { OnlyAddStrands(s, es[0]); }
      if Served(s1) { NothingStrandedIff(s1, es[1..]); }
    }
  }

  // ----- how many tasks are stranded -----

  /** The number of queued tasks that nobody is left to take. */
  ghost function Lost(s: State): nat {
    if Served(s) then 0 else |s.queue| - Count(s.workers, Tardy)
  }

  /** With tasks stranded, only the expired waiters and those on their last task are left. */
  lemma StrandedPhase(s: State, w: nat)
    requires Sound(s) && !Served(s) && w < |s.workers|
    ensures var p := s.workers[w]; p.Expired? || p.Exited? || (p.Running? && p.timedOut)
  {
    CountPositive(s.workers, Carrier);
    CountPositive(s.workers, Asleep);
    assert !Is(Carrier, s.workers[w]) && !Is(Asleep, s.workers[w]);
  }

  lemma StrandedLate(s: State, w: nat, t: Waiter)
    requires Sound(s) && !Served(s) && w < |s.workers| && s.workers[w].Expired?
    ensures var r := Attempt(s, w, true, t);
            |r.queue| - Count(r.workers, Tardy) == |s.queue| - Count(s.workers, Tardy)
  {
    CountUpdate(s.workers, w, Running(s.queue[0], true), Tardy);
  }

  lemma StrandedFinish(s: State, w: nat, t: Waiter)
    requires Sound(s) && !Served(s) && Enabled(s, Finish(w, t))
    ensures var r := Apply(s, Finish(w, t));
            r.queue == s.queue && Count(r.workers, Tardy) == Count(s.workers, Tardy)
  {
    StrandedPhase(s, w);
    CountUpdate(s.workers, w, Exited, Tardy);
  }

  /** Apart from Add, no event changes how many tasks are stranded. */
  lemma LostUnchanged(s: State, e: Event)
    requires Sound(s) && Enabled(s, e) && !e.Add?
    ensures Lost(Apply(s, e)) == Lost(s)
  {
    OnlyAddStrands(s, e);
    if !Served(s) {
      match e
      case Enter(w, _) => StrandedPhase(s, w);
      case Resume(w, _) => StrandedPhase(s, w);
      case Late(w, t) => StrandedLate(s, w, t);
      case Timeout(w, _) => StrandedPhase(s, w);
      case Finish(w, t) => StrandedFinish(s, w, t);
      case Expire(w) => StrandedPhase(s, w);
      case Spurious(w) => StrandedPhase(s, w);
      case Destroy => CountWakeAll(s.workers, Tardy);
      case DestroyerSpurious =>
      case DestroyerTest =>
    }
  }

  /** A safe Add rescues whatever was stranded; any other strands one task more. */
  lemma AddLoses(s: State, task: Task, t: Waiter)
    requires Sound(s) && Enabled(s, Add(task, t))
    ensures Lost(Apply(s, Add(task, t))) == if AddSafe(s) then 0 else Lost(s) + 1
  {
    AddServedIff(s, task, t);
    if !AddSafe(s) {
      CountPositive(s.workers, Asleep);
      forall i | 0 <= i < |s.workers| ensures !s.workers[i].Blocked? { assert !Is(Asleep, s.workers[i]); }
    }
  }

  /** The Adds of a run that were not safe, counted from the last safe one on. */
  ghost function UnsafeAdds(s: State, es: seq<Event>, n: nat): nat
    requires IsRun(s, es)
    decreases |es|
  {
    if es == [] then n
    else UnsafeAdds(Apply(s, es[0]), es[1..], if !es[0].Add? then n else if AddSafe(s) then 0 else n + 1)
  }

  /** After any run exactly as many tasks are stranded as Adds were unsafe since the last safe one. */
  lemma {:induction false} LostIsUnsafeAdds(s: State, es: seq<Event>)
    requires Sound(s) && IsRun(s, es)
    ensures Lost(After(s, es)) == UnsafeAdds(s, es, Lost(s))
    ensures (forall e <- es :: !e.Add?) ==> Lost(After(s, es)) == Lost(s)
    decreases |es|
  {
    if es != [] {
      if es[0].Add? {
        AddServedIff(s, es[0].task, es[0].t);
        AddLoses(s, es[0].task, es[0].t);
      } else {
        OnlyAddStrands(s, es[0]);
        LostUnchanged(s, es[0]);
      }
      LostIsUnsafeAdds(Apply(s, es[0]), es[1..]);
    }
  }
}
