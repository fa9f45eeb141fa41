/**
 threadPool_destroy: it always comes to rest, and it drains the queue exactly when the queue is served at the
 call.
 */
module Shutdown {
  import opened Protocol
  import opened CounterInvariant
  import opened Service
  import opened Progress

  ghost predicate Reachable(s: State) {
    exists n, es :: n >= 1 && IsRun(Init(n), es) && After(Init(n), es) == s
  }

  lemma ReachableSound(s: State)
    requires Reachable(s)
    ensures Inv(s) && Sound(s)
  {
    var n, es :| n >= 1 && IsRun(Init(n), es) && After(Init(n), es) == s;
    RunKeeps(Init(n), es);
    RunSound(Init(n), es);
  }

  // ----- after quit is set, work only shrinks -----

  /** Everything but a destroyer that wakes for nothing and goes back to wait. */
  ghost predicate Productive(s: State, e: Event) {
    !e.DestroyerSpurious? && (e.DestroyerTest? ==> s.count == 0)
  }

  /** Once quit is set nobody sleeps, so no deadline passes and nothing is submitted. */
  lemma NoSleeperEvents(s: State, e: Event)
    requires Counters(s) && s.quit && Enabled(s, e)
    ensures !e.Add? && !e.Destroy? && !e.Timeout? && !e.Expire? && !e.Spurious?
    ensures forall i :: 0 <= i < |s.workers| ==> !s.workers[i].Blocked?
  {
    CountPositive(s.workers, Asleep);
    forall i | 0 <= i < |s.workers| ensures !s.workers[i].Blocked? { assert !Is(Asleep, s.workers[i]); }
  }

  /** Once quit is set every event strictly decreases the measure, unless it is an idle turn of the destroyer. */
  lemma ShutdownStep(s: State, e: Event)
    requires Counters(s) && s.quit && Enabled(s, e)
    ensures Apply(s, e).quit
    ensures Productive(s, e) ==> Measure(Apply(s, e)) < Measure(s)
    ensures !Productive(s, e) ==> Apply(s, e) == s.(destroyer := if e.DestroyerTest? then Waiting else Signalled)
  {
    NoSleeperEvents(s, e);
    if OfWorker(e) { WorkShrinks(s, e); }
  }

  ghost function Productives(s: State, es: seq<Event>): nat
    requires IsRun(s, es)
    decreases |es|
  {
    if es == [] then 0
    else (if Productive(s, es[0]) then 1 else 0) + Productives(Apply(s, es[0]), es[1..])
  }

  /** No divergence: a shutdown makes at most Measure(s) productive steps, whatever the schedule. */
  lemma {:induction false} ShutdownTerminates(s: State, es: seq<Event>)
    requires Counters(s) && s.quit && IsRun(s, es)
    ensures Productives(s, es) + Measure(After(s, es)) <= Measure(s)
    ensures Counters(After(s, es)) && After(s, es).quit
    decreases |es|
  {
    if es != [] {
      ShutdownStep(s, es[0]);
      StepCounters(s, es[0]);
      ShutdownTerminates(Apply(s, es[0]), es[1..]);
    }
  }

  // ----- no deadlock -----

  ghost predicate AtRest(s: State) {
    forall e :: Enabled(s, e) ==> !Productive(s, e)
  }

  /** A shutdown is at rest only when every worker has left and the destroyer waits or has returned. */
  lemma RestMeansEmpty(s: State)
    requires Counters(s) && s.quit && AtRest(s)
    ensures s.count == 0 && (s.destroyer.Waiting? || s.destroyer.Returned?)
  {
    forall e | Enabled(s, e) ensures !OfWorker(e) { assert !Productive(s, e); }
    WorkersRested(s);
    CountSplit(s.workers);
    assert s.destroyer.Signalled? ==> Enabled(s, DestroyerTest) && Productive(s, DestroyerTest);
  }

  // ----- no lost wakeup -----

  /** While tasks are served, a waiting destroyer still has a live worker to wake it. */
  ghost predicate WillBeWoken(s: State) {
    Served(s) && s.destroyer.Waiting? ==> s.count > 0
  }

  lemma StepWillBeWoken(s: State, e: Event)
    requires Sound(s) && s.quit && WillBeWoken(s) && Enabled(s, e)
    ensures WillBeWoken(Apply(s, e))
  {
    var r := Apply(s, e);
    OnlyAddStrands(s, e);
    NoSleeperEvents(s, e);
    CountPositive(s.workers, Live);
    CountSplit(r.workers);
    match e
    case Enter(w, t) => assert Is(Live, s.workers[w]);
    case Resume(w, t) => assert Is(Live, s.workers[w]);
    case Late(w, t) => assert Is(Live, s.workers[w]);
    case Finish(w, t) => assert Is(Live, s.workers[w]);
    case DestroyerSpurious =>
    case DestroyerTest =>
    case _ =>
  }

  /**
   With the queue served, the event by which the last worker leaves empties the pool and wakes the waiting
   destroyer.
   */
  lemma LastLeaverSignals(s: State, e: Event)
    requires Sound(s) && s.quit && Served(s) && s.destroyer.Waiting? && s.count > 0
    requires Enabled(s, e) && Apply(s, e).count == 0
    ensures Apply(s, e).queue == [] && Apply(s, e).destroyer.Signalled?
  {
    var r := Apply(s, e);
    NoSleeperEvents(s, e);
    OnlyAddStrands(s, e);
    StepWillBeWoken(s, e);
    CountSplit(r.workers);
  }

  lemma {:induction false} RunWillBeWoken(s: State, es: seq<Event>)
    requires Sound(s) && s.quit && WillBeWoken(s) && IsRun(s, es)
    ensures WillBeWoken(After(s, es)) && Sound(After(s, es))
    ensures Served(After(s, es)) <==> Served(s)
    decreases |es|
  {
    if es != [] {
      StepWillBeWoken(s, es[0]);
      OnlyAddStrands(s, es[0]);
      ShutdownStep(s, es[0]);
      RunWillBeWoken(Apply(s, es[0]), es[1..]);
    }
  }

  /** With a stranded task nobody ever signals the destroyer. */
  lemma {:induction false} NeverSignalled(s: State, es: seq<Event>)
    requires Sound(s) && s.quit && !Served(s) && s.destroyer.Waiting? && IsRun(s, es)
    requires forall e <- es :: !e.DestroyerSpurious?
    ensures After(s, es).destroyer.Waiting?
    decreases |es|
  {
    if es != [] {
      OnlyAddStrands(s, es[0]);
      ShutdownStep(s, es[0]);
      NeverSignalled(Apply(s, es[0]), es[1..]);
    }
  }

  // ----- the theorems about destroy -----

  lemma AfterDestroy(s: State)
    requires Reachable(s) && Enabled(s, Destroy)
    ensures var d := Apply(s, Destroy);
            Inv(d) && Sound(d) && d.quit && WillBeWoken(d) && (Served(d) <==> Served(s))
            && (d.destroyer.Waiting? <==> s.count > 0) && (d.destroyer.Returned? <==> s.count == 0)
  {
    ReachableSound(s);
    StepKeeps(s, Destroy);
    OnlyAddStrands(s, Destroy);
    CountSplit(s.workers);
  }

  /** With nobody left, tasks completed = tasks submitted exactly when the queue is empty. */
  lemma AllDoneIff(s: State)
    requires Inv(s) && s.count == 0
    ensures forall w :: 0 <= w < |s.workers| ==> s.workers[w].Exited?
    ensures multiset(s.completed) == multiset(s.submitted) <==> s.queue == []
  {
    CountPositive(s.workers, Live);
    forall w | 0 <= w < |s.workers| ensures s.workers[w].Exited? { assert !Is(Live, s.workers[w]); }
    CountSplit(s.workers);
    forall x ensures multiset(s.submitted)[x] == multiset(s.completed)[x] + multiset(s.queue)[x] {
      assert Balanced(s, x);
      OccurrencesMultiset(s.started, x);
      OccurrencesMultiset(s.completed, x);
    }
    if s.queue != [] {
      assert s.queue[0] in multiset(s.queue);
      assert multiset(s.submitted)[s.queue[0]] > multiset(s.completed)[s.queue[0]];
    }
  }

  /** After destroy nothing is submitted, so what was stranded at the call stays so, and no more. */
  lemma {:induction false} ShutdownLost(s: State, es: seq<Event>)
    requires Sound(s) && s.quit && IsRun(s, es)
    ensures Lost(After(s, es)) == Lost(s)
    decreases |es|
  {
    if es != [] {
      ShutdownStep(s, es[0]);
      NoSleeperEvents(s, es[0]);
      OnlyAddStrands(s, es[0]);
      LostUnchanged(s, es[0]);
      ShutdownLost(Apply(s, es[0]), es[1..]);
    }
  }

  lemma LeftAtReturn(s: State, es: seq<Event>)
    requires Reachable(s) && Enabled(s, Destroy) && IsRun(Apply(s, Destroy), es)
    requires After(Apply(s, Destroy), es).destroyer.Returned?
    ensures |After(Apply(s, Destroy), es).queue| == Lost(s)
  {
    AfterDestroy(s);
    ReachableSound(s);
    LostUnchanged(s, Destroy);
    RunWillBeWoken(Apply(s, Destroy), es);
    ShutdownLost(Apply(s, Destroy), es);
    CountSplit(After(Apply(s, Destroy), es).workers);
  }

  /**
   Drain: when destroy has returned every worker is gone, and every task ever submitted has run
   exactly once if and only if the queue was served when destroy was called. Otherwise the tasks stranded then are left.
   */
  lemma DrainIff(s: State, es: seq<Event>)
    requires Reachable(s) && Enabled(s, Destroy) && IsRun(Apply(s, Destroy), es)
    requires After(Apply(s, Destroy), es).destroyer.Returned?
    ensures var f := After(Apply(s, Destroy), es);
            && f.count == 0 && (forall w :: 0 <= w < |f.workers| ==> f.workers[w].Exited?)
            && (f.queue == [] <==> Served(s))
            && (multiset(f.completed) == multiset(f.submitted) <==> Served(s))
    ensures |After(Apply(s, Destroy), es).queue| == Lost(s)
  {
    AfterDestroy(s);
    var d := Apply(s, Destroy);
    RunKeeps(d, es);
    RunWillBeWoken(d, es);
    AllDoneIff(After(d, es));
    CountSplit(After(d, es).workers);
    LeftAtReturn(s, es);
  }

  /** Once destroy has returned, nothing can happen any more. */
  lemma ReturnedIsFinal(s: State, e: Event)
    requires Counters(s) && s.quit && s.destroyer.Returned?
    ensures !Enabled(s, e)
  {
    CountPositive(s.workers, Live);
    forall i | 0 <= i < |s.workers| ensures s.workers[i].Exited? { assert !Is(Live, s.workers[i]); }
  }

  /**
   With the queue served, or nobody alive, destroy has returned when no productive step is left, woken by chance
   or not.
   */
  lemma ServedShutdownReturns(s: State, es: seq<Event>)
    requires Reachable(s) && Enabled(s, Destroy) && IsRun(Apply(s, Destroy), es)
    requires AtRest(After(Apply(s, Destroy), es)) && (Served(s) || s.count == 0)
    ensures After(Apply(s, Destroy), es).destroyer.Returned?
  {
    AfterDestroy(s);
    var d := Apply(s, Destroy);
    RunWillBeWoken(d, es);
    ShutdownTerminates(d, es);
    RestMeansEmpty(After(d, es));
    if s.count == 0 && es != [] { ReturnedIsFinal(d, es[0]); }
  }

  /**
   With a task stranded and a worker alive, destroy never returns, at rest or before, unless the destroyer wakes
   by chance.
   */
  lemma StrandedShutdownHangs(s: State, es: seq<Event>)
    requires Reachable(s) && Enabled(s, Destroy) && IsRun(Apply(s, Destroy), es)
    requires !Served(s) && s.count > 0 && forall e <- es :: !e.DestroyerSpurious?
    ensures After(Apply(s, Destroy), es).destroyer.Waiting?
  {
    AfterDestroy(s);
    NeverSignalled(Apply(s, Destroy), es);
  }

  /**
   Shutdown completes: when no productive step is left, and the destroyer was not woken by chance,
   destroy has returned if and only if the queue was served, or no worker was alive, at the call.
   */
  lemma ShutdownCompletesIff(s: State, es: seq<Event>)
    requires Reachable(s) && Enabled(s, Destroy) && IsRun(Apply(s, Destroy), es)
    requires AtRest(After(Apply(s, Destroy), es)) && forall e <- es :: !e.DestroyerSpurious?
    ensures After(Apply(s, Destroy), es).destroyer.Returned? <==> Served(s) || s.count == 0
  {
    if Served(s) || s.count == 0 {
      ServedShutdownReturns(s, es);
    } else {
      ReachableSound(s);
      CountSplit(s.workers);
      StrandedShutdownHangs(s, es);
    }
  }

  /**
   When no deadline passes unnoticed destroy always completes, woken by chance or not, and every task has run
   exactly once.
   */
  lemma PromptShutdown(maxThread: int, before: seq<Event>, es: seq<Event>)
    requires maxThread >= 1 && IsRun(Init(maxThread), before) && forall e <- before :: !e.Expire?
    requires var s := After(Init(maxThread), before); Enabled(s, Destroy) && IsRun(Apply(s, Destroy), es)
    requires AtRest(After(Apply(After(Init(maxThread), before), Destroy), es))
    ensures var f := After(Apply(After(Init(maxThread), before), Destroy), es);
            f.destroyer.Returned? && f.queue == [] && multiset(f.completed) == multiset(f.submitted)
  {
    var s := After(Init(maxThread), before);
    assert Reachable(s);
    RunPrompt(Init(maxThread), before);
    AfterDestroy(s);
    RunWillBeWoken(Apply(s, Destroy), es);
    ShutdownTerminates(Apply(s, Destroy), es);
    RestMeansEmpty(After(Apply(s, Destroy), es));
    DrainIff(s, es);
  }

  // ----- runs that strand a task -----

  lemma RunFrom(es: seq<Event>, k: nat, s: State, s1: State)
    requires k < |es| && Enabled(s, es[k]) && Apply(s, es[k]) == s1 && IsRun(s1, es[k + 1..])
    ensures IsRun(s, es[k..]) && After(s, es[k..]) == After(s1, es[k + 1..])
  {
    assert es[k..][1..] == es[k + 1..];
  }

  lemma {:induction false} RunOn(s: State, es: seq<Event>, more: seq<Event>)
    requires IsRun(s, es) && IsRun(After(s, es), more)
    ensures IsRun(s, es + more) && After(s, es + more) == After(After(s, es), more)
    decreases |es|
  {
    if es == [] {
      assert es + more == more;
    } else {
      var all := es + more;
      assert all[0] == es[0] && all[1..] == es[1..] + more;
      RunOn(Apply(s, es[0]), es[1..], more);
    }
  }

  /**
   The deadline passes before the only worker gets the mutex back; two tasks are added meanwhile, and the worker
   takes one.
   */
  function Unnoticed(a: Task, b: Task, c: Task): seq<Event> {
    [Add(a, Nobody), Enter(0, Nobody), Finish(0, Nobody), Enter(0, Nobody), Expire(0),
     Add(b, Nobody), Add(c, Nobody), Late(0, Nobody)]
  }

  function OnLastTask(a: Task, b: Task, c: Task): State {
    State(1, [c], 1, 0, false, [Running(b, true)], Outside, [a, b, c], [a, b], [a])
  }

  lemma UnnoticedEnd(a: Task, b: Task, c: Task)
    ensures var s := State(1, [], 1, 0, false, [LoopTop], Outside, [a], [a], [a]);
            IsRun(s, Unnoticed(a, b, c)[3..]) && After(s, Unnoticed(a, b, c)[3..]) == OnLastTask(a, b, c)
  {
    var es := Unnoticed(a, b, c);
    var s3 := State(1, [], 1, 0, false, [LoopTop], Outside, [a], [a], [a]);
    var s4 := s3.(idle := 1, workers := [Blocked]);
    var s5 := s4.(workers := [Expired]);
    var s6 := s5.(queue := [b], submitted := [a, b]);
    var s7 := s5.(queue := [b, c], submitted := [a, b, c]);
    assert es[8..] == [];
    RunFrom(es, 7, s7, OnLastTask(a, b, c));
    RunFrom(es, 6, s6, s7);
    RunFrom(es, 5, s5, s6);
    RunFrom(es, 4, s4, s5);
    RunFrom(es, 3, s3, s4);
  }

  lemma UnnoticedRun(a: Task, b: Task, c: Task)
    ensures IsRun(Init(1), Unnoticed(a, b, c)) && After(Init(1), Unnoticed(a, b, c)) == OnLastTask(a, b, c)
  {
    var es := Unnoticed(a, b, c);
    var s1 := State(1, [a], 1, 0, false, [LoopTop], Outside, [a], [], []);
    var s2 := State(1, [], 1, 0, false, [Running(a, false)], Outside, [a], [a], []);
    var s3 := State(1, [], 1, 0, false, [LoopTop], Outside, [a], [a], [a]);
    UnnoticedEnd(a, b, c);
    RunFrom(es, 2, s2, s3);
    RunFrom(es, 1, s1, s2);
    RunFrom(es, 0, Init(1), s1);
    assert es[0..] == es;
  }

  lemma TwoMore(a: Task, b: Task, c: Task, e: Event, s1: State, f: Event, s2: State)
    requires Enabled(OnLastTask(a, b, c), e) && Apply(OnLastTask(a, b, c), e) == s1
    requires Enabled(s1, f) && Apply(s1, f) == s2
    ensures IsRun(Init(1), Unnoticed(a, b, c) + [e, f]) && After(Init(1), Unnoticed(a, b, c) + [e, f]) == s2
  {
    assert [e, f][2..] == [];
    RunFrom([e, f], 1, s1, s2);
    RunFrom([e, f], 0, OnLastTask(a, b, c), s1);
    assert [e, f][0..] == [e, f];
    UnnoticedRun(a, b, c);
    RunOn(Init(1), Unnoticed(a, b, c), [e, f]);
  }

  /** The worker leaves silently, and destroy, finding nobody, returns at once with a task still queued. */
  lemma StrandedRun(a: Task, b: Task, c: Task)
    ensures var es := Unnoticed(a, b, c) + [Finish(0, Nobody), Destroy];
            && IsRun(Init(1), es)
            && var f := After(Init(1), es);
               f.destroyer.Returned? && f.queue == [c] && f.submitted == [a, b, c] && f.completed == [a, b]
  {
    var s1 := State(1, [c], 0, 0, false, [Exited], Outside, [a, b, c], [a, b], [a, b]);
    TwoMore(a, b, c, Finish(0, Nobody), s1, Destroy, s1.(quit := true, destroyer := Returned));
  }

  /**
   The same worker, but destroy is called while it runs its last task: it leaves silently, since a task
   is still queued, and the destroyer waits for ever: nothing but a chance wakeup can happen any more.
   */
  lemma HangingRun(a: Task, b: Task, c: Task)
    ensures var es := Unnoticed(a, b, c) + [Destroy, Finish(0, Destroyer)];
            && IsRun(Init(1), es)
            && var f := After(Init(1), es);
               f.destroyer.Waiting? && f.count == 0 && f.queue == [c] && f.completed == [a, b] && AtRest(f)
  {
    var d := OnLastTask(a, b, c).(quit := true, destroyer := Waiting);
    var f := State(1, [c], 0, 0, true, [Exited], Waiting, [a, b, c], [a, b], [a, b]);
    TwoMore(a, b, c, Destroy, d, Finish(0, Destroyer), f);
  }
}
