/** The work in the pool runs down: the workers come to rest, and then the queue is empty exactly if it was served. */
module Progress {
  import opened Protocol
  import opened CounterInvariant
  import opened Service

  /** A critical section of a worker, as opposed to a submission, the passing of time or the destroyer. */
  predicate OfWorker(e: Event) { e.Enter? || e.Resume? || e.Late? || e.Finish? }

  ghost function Measure(s: State): nat {
    2 * |s.queue| + Count(s.workers, Awake) + Count(s.workers, Busy) + if s.destroyer.Returned? then 0 else 1
  }

  lemma LeaveMeasure(s: State, w: nat, timedOut: bool, t: Waiter)
    requires w < |s.workers| && Is(Awake, s.workers[w]) && ValidTarget(s.workers[w := Exited], s.destroyer, t)
    requires s.quit ==> !t.Worker?
    ensures Measure(Leave(s, w, timedOut, t)) < Measure(s) + if s.workers[w].Running? then 0 else 1
    ensures (s.quit && s.queue == []) || timedOut ==> Measure(Leave(s, w, timedOut, t)) < Measure(s)
  {
    forall k | k == Awake || k == Busy
      ensures Count(s.workers[w := Exited], k) == Count(s.workers, k) - Bit(k, s.workers[w])
      ensures Count(s.workers[w := LoopTop], k) == Count(s.workers, k) - Bit(k, s.workers[w]) + Bit(k, LoopTop)
    {
      CountUpdate(s.workers, w, Exited, k);
      CountUpdate(s.workers, w, LoopTop, k);
    }
  }

  lemma RoundMeasure(s: State, w: nat, timedOut: bool, t: Waiter)
    requires w < |s.workers| && Is(Awake, s.workers[w]) && !s.workers[w].Running?
    requires ValidTarget(s.workers[w := Exited], s.destroyer, t) && (s.quit ==> !t.Worker?)
    ensures Measure(Attempt(s, w, timedOut, t)) < Measure(s)
  {
    if s.queue != [] {
      CountUpdate(s.workers, w, Running(s.queue[0], timedOut), Awake);
      CountUpdate(s.workers, w, Running(s.queue[0], timedOut), Busy);
    } else if !s.quit && !timedOut {
      CountUpdate(s.workers, w, Blocked, Awake);
      CountUpdate(s.workers, w, Blocked, Busy);
    } else {
      LeaveMeasure(s.(idle := s.idle - 1), w, timedOut, t);
    }
  }

  lemma NoSleeperTarget(s: State, w: nat, t: Waiter)
    requires Counters(s) && s.quit && w < |s.workers| && ValidTarget(s.workers[w := Exited], s.destroyer, t)
    ensures !t.Worker?
  {
    CountPositive(s.workers, Asleep);
    forall i | 0 <= i < |s.workers| ensures !s.workers[i].Blocked? { assert !Is(Asleep, s.workers[i]); }
  }

  /** Every critical section of a worker leaves less to do. */
  lemma WorkShrinks(s: State, e: Event)
    requires Counters(s) && Enabled(s, e) && OfWorker(e)
    ensures Measure(Apply(s, e)) < Measure(s)
  {
    if s.quit { NoSleeperTarget(s, e.w, e.t); }
    match e
    case Enter(w, t) => RoundMeasure(s.(idle := s.idle + 1), w, false, t);
    case Resume(w, t) => RoundMeasure(s, w, false, t);
    case Late(w, t) => RoundMeasure(s, w, true, t);
    case Finish(w, t) =>
      LeaveMeasure(s.(completed := s.completed + [s.workers[w].task]), w, s.workers[w].timedOut, t);
  }

  ghost predicate WorkersAtRest(s: State) {
    forall e :: Enabled(s, e) ==> !OfWorker(e)
  }

  lemma SomeTarget(ws: seq<Phase>, d: Caller) returns (t: Waiter)
    ensures ValidTarget(ws, d, t)
  {
    if d.Waiting? {
      t := Destroyer;
    } else if id :| 0 <= id < |ws| && ws[id].Blocked? {
      t := Worker(id);
    } else {
      t := Nobody;
    }
  }

  lemma AwakeCanMove(s: State, w: nat)
    requires w < |s.workers| && Is(Awake, s.workers[w])
    ensures !WorkersAtRest(s)
  {
    var t := SomeTarget(s.workers[w := Exited], s.destroyer);
    var e := if s.workers[w].LoopTop? then Enter(w, t) else if s.workers[w].Woken? then Resume(w, t)
             else if s.workers[w].Expired? then Late(w, t) else Finish(w, t);
    assert Enabled(s, e) && OfWorker(e);
  }

  /** No worker is ever stuck outside the wait. */
  lemma WorkersRested(s: State)
    requires WorkersAtRest(s)
    ensures Count(s.workers, Awake) == Count(s.workers, Carrier) == Count(s.workers, Tardy) == 0
  {
    CountPositive(s.workers, Awake);
    CountPositive(s.workers, Carrier);
    CountPositive(s.workers, Tardy);
    forall w | 0 <= w < |s.workers| ensures !Is(Awake, s.workers[w]) {
      if Is(Awake, s.workers[w]) { AwakeCanMove(s, w); }
    }
    assert forall w :: 0 <= w < |s.workers| && (Is(Carrier, s.workers[w]) || Is(Tardy, s.workers[w])) ==>
                         Is(Awake, s.workers[w]);
  }

  // ----- everything else makes a bounded amount of work -----

  /** How much work an event makes: a submission brings a task and perhaps a worker, other events wake sleepers. */
  ghost function Disturbance(s: State, e: Event): nat {
    match e
    case Add(_, _) => 3
    case Expire(_) => 1
    case Spurious(_) => 1
    case Destroy => Count(s.workers, Asleep)
    case _ => 0
  }

  lemma WakeMeasure(s: State, w: nat, p: Phase)
    requires w < |s.workers| && s.workers[w].Blocked? && (p.Woken? || p.Expired?)
    ensures Measure(s.(workers := s.workers[w := p])) == Measure(s) + 1
  {
    CountUpdate(s.workers, w, p, Awake);
    CountUpdate(s.workers, w, p, Busy);
  }

  lemma AddMeasure(s: State, task: Task, t: Waiter)
    requires Enabled(s, Add(task, t))
    ensures Measure(Apply(s, Add(task, t))) <= Measure(s) + 3
  {
    if s.idle > 0 {
      var q := s.(queue := s.queue + [task], submitted := s.submitted + [task]);
      if t.Worker? { WakeMeasure(q, t.id, Woken); }
      assert Apply(s, Add(task, t)) == Signal(q, t);
    } else {
      CountAppend(s.workers, LoopTop, Awake);
      CountAppend(s.workers, LoopTop, Busy);
    }
  }

  lemma DestroyMeasure(s: State)
    requires s.destroyer.Outside?
    ensures Measure(StartDestroy(s)) <= Measure(s) + Count(s.workers, Asleep)
  {
    CountWakeAll(s.workers, Awake);
    CountWakeAll(s.workers, Busy);
  }

  /** A deadline that passes while the mutex is free makes no work: the worker is done in one step. */
  lemma TimeoutMeasure(s: State, w: nat, t: Waiter)
    requires Counters(s) && Enabled(s, Timeout(w, t))
    ensures Measure(Apply(s, Timeout(w, t))) <= Measure(s)
  {
    TimeoutIsExpireThenLate(s, w, t);
    WakeMeasure(s, w, Expired);
    StepCounters(s, Expire(w));
    WorkShrinks(Apply(s, Expire(w)), Late(w, t));
  }

  lemma StepMeasure(s: State, e: Event)
    requires Counters(s) && Enabled(s, e)
    ensures Measure(Apply(s, e)) + (if OfWorker(e) then 1 else 0) <= Measure(s) + Disturbance(s, e)
  {
    if OfWorker(e) {
      WorkShrinks(s, e);
    } else {
      match e
      case Add(task, t) => AddMeasure(s, task, t);
      case Timeout(w, t) => TimeoutMeasure(s, w, t);
      case Expire(w) => WakeMeasure(s, w, Expired);
      case Spurious(w) => WakeMeasure(s, w, Woken);
      case Destroy => DestroyMeasure(s);
      case DestroyerSpurious =>
      case DestroyerTest =>
    }
  }

  ghost function Works(es: seq<Event>): nat
    decreases |es|
  {
    if es == [] then 0 else (if OfWorker(es[0]) then 1 else 0) + Works(es[1..])
  }

  ghost function Disturbances(s: State, es: seq<Event>): nat
    requires IsRun(s, es)
    decreases |es|
  {
    if es == [] then 0 else Disturbance(s, es[0]) + Disturbances(Apply(s, es[0]), es[1..])
  }

  /**
   In every run the critical sections of the workers are bounded by the work there was and the work that other
   events made.
   */
  lemma {:induction false} WorkIsBounded(s: State, es: seq<Event>)
    requires Counters(s) && IsRun(s, es)
    ensures Works(es) + Measure(After(s, es)) <= Measure(s) + Disturbances(s, es)
    decreases |es|
  {
    if es != [] {
      StepMeasure(s, es[0]);
      StepCounters(s, es[0]);
      WorkIsBounded(Apply(s, es[0]), es[1..]);
    }
  }

  /**
   Without new submissions, and whatever else happens, once the workers have come to rest every queued
   task has been started if and only if the queue was served; otherwise the stranded ones are left, and no others.
   */
  lemma QueueRunsDown(s: State, es: seq<Event>)
    requires Sound(s) && IsRun(s, es) && (forall e <- es :: !e.Add?) && WorkersAtRest(After(s, es))
    ensures After(s, es).queue == [] <==> Served(s)
    ensures |After(s, es).queue| == Lost(s)
  {
    RunSound(s, es);
    LostIsUnsafeAdds(s, es);
    WorkersRested(After(s, es));
  }
}
