/** What each event does to the fields of the pool, when it may happen, and how many threads a run creates. */
module Effects {
  import opened Protocol
  import opened Progress
  import opened Shutdown

  /** A signal: exactly its target is woken, and it reaches nobody only if nobody waits. */
  ghost predicate Woke(t: Waiter, ws: seq<Phase>, d: Caller, ws1: seq<Phase>, d1: Caller) {
    match t
    case Nobody => ws1 == ws && d1 == d && !d.Waiting? && forall i :: 0 <= i < |ws| ==> !ws[i].Blocked?
    case Worker(id) => id < |ws| && ws[id].Blocked? && ws1 == ws[id := Woken] && d1 == d
    case Destroyer => ws1 == ws && d.Waiting? && d1.Signalled?
  }

  // ----- submissions -----

  /**
   With no worker idle, an Add creates a thread if there is room for one, and signals nobody; otherwise it only
   signals.
   */
  lemma AddEffect(s: State, task: Task, t: Waiter)
    requires Enabled(s, Add(task, t))
    ensures var r := Apply(s, Add(task, t));
            && r.queue == s.queue + [task] && r.submitted == s.submitted + [task]
            && r.started == s.started && r.completed == s.completed
            && r.maxThread == s.maxThread && r.idle == s.idle && r.quit == s.quit
            && (s.idle <= 0 && s.count < s.maxThread ==>
                  r.count == s.count + 1 && r.workers == s.workers + [LoopTop] && r.destroyer == s.destroyer)
            && (s.idle <= 0 && s.count >= s.maxThread ==>
                  r.count == s.count && r.workers == s.workers && r.destroyer == s.destroyer)
            && (s.idle > 0 ==> r.count == s.count && Woke(t, s.workers, s.destroyer, r.workers, r.destroyer))
  {
  }

  /** The Adds of a run that find no worker idle and room for one more. */
  ghost function Creations(s: State, es: seq<Event>): nat
    requires IsRun(s, es)
    decreases |es|
  {
    if es == [] then 0
    else
      (if es[0].Add? && s.idle <= 0 && s.count < s.maxThread then 1 else 0) + Creations(Apply(s, es[0]), es[1..])
  }

  lemma StepKeepsThreads(s: State, e: Event)
    requires Enabled(s, e) && !e.Add?
    ensures |Apply(s, e).workers| == |s.workers|
  {
  }

  /** A run has exactly as many threads as its Adds created. */
  lemma {:induction false} ThreadsAreCreations(s: State, es: seq<Event>)
    requires IsRun(s, es)
    ensures |After(s, es).workers| == |s.workers| + Creations(s, es)
    decreases |es|
  {
    if es != [] {
      if es[0].Add? { AddEffect(s, es[0].task, es[0].t); } else { StepKeepsThreads(s, es[0]); }
      ThreadsAreCreations(Apply(s, es[0]), es[1..]);
    }
  }

  /** Two Adds to a fresh pool of at least two threads start two threads, although the first worker is busy. */
  lemma SecondThread(n: int, a: Task, b: Task)
    requires n >= 2
    ensures var es := [Add(a, Nobody), Enter(0, Nobody), Add(b, Nobody)];
            && IsRun(Init(n), es)
            && After(Init(n), es).workers == [Running(a, false), LoopTop] && After(Init(n), es).count == 2
  {
    var es := [Add(a, Nobody), Enter(0, Nobody), Add(b, Nobody)];
    var s1 := State(n, [a], 1, 0, false, [LoopTop], Outside, [a], [], []);
    var s2 := State(n, [], 1, 0, false, [Running(a, false)], Outside, [a], [a], []);
    var s3 := State(n, [b], 2, 0, false, [Running(a, false), LoopTop], Outside, [a, b], [a], []);
    assert es[3..] == [];
    RunFrom(es, 2, s2, s3);
    RunFrom(es, 1, s1, s2);
    RunFrom(es, 0, Init(n), s1);
    assert es[0..] == es;
  }

  // ----- the worker -----

  predicate TakesTheMutex(e: Event) { e.Enter? || e.Resume? || e.Late? || e.Timeout? }

  /** The last worker to leave signals, any other leaves silently. */
  ghost predicate LeftLast(s: State, r: State, w: nat, t: Waiter)
    requires w < |s.workers|
  {
    var ws := s.workers[w := Exited];
    && r.count == s.count - 1
    && (r.count == 0 ==> Woke(t, ws, s.destroyer, r.workers, r.destroyer))
    && (r.count != 0 ==> r.workers == ws && r.destroyer == s.destroyer)
  }

  /** What does not change when a worker has the mutex. */
  predicate Kept(s: State, r: State) {
    r.maxThread == s.maxThread && r.quit == s.quit && r.submitted == s.submitted
  }

  /**
   A worker that gets the mutex takes the first task, if there is one. Otherwise it leaves if the pool is to be
   destroyed or its deadline has passed, and waits if not. Only in the wait it counts as idle.
   */
  lemma RoundEffect(s: State, e: Event)
    requires Enabled(s, e) && TakesTheMutex(e)
    ensures var r := Apply(s, e);
            var late, idle := e.Late? || e.Timeout?, s.idle + if e.Enter? then 1 else 0;
            && Kept(s, r) && r.completed == s.completed
            && (s.queue != [] ==>
                  && r.queue == s.queue[1..] && r.started == s.started + [s.queue[0]] && r.idle == idle - 1
                  && r.workers == s.workers[e.w := Running(s.queue[0], late)]
                  && r.count == s.count && r.destroyer == s.destroyer)
            && (s.queue == [] ==> r.queue == [] && r.started == s.started)
            && (s.queue == [] && s.quit ==> r.idle == idle - 1 && LeftLast(s, r, e.w, e.t))
            && (s.queue == [] && !s.quit && late ==>
                  && r.idle == idle - 1 && r.count == s.count - 1
                  && r.workers == s.workers[e.w := Exited] && r.destroyer == s.destroyer)
            && (s.queue == [] && !s.quit && !late ==>
                  && r.idle == idle && r.count == s.count
                  && r.workers == s.workers[e.w := Blocked] && r.destroyer == s.destroyer)
  {
  }

  /**
   A worker whose task is done leaves if the pool is to be destroyed and nothing is queued, leaves silently if its
   deadline had passed, and goes round again otherwise.
   */
  lemma FinishEffect(s: State, w: nat, t: Waiter)
    requires Enabled(s, Finish(w, t))
    ensures var r := Apply(s, Finish(w, t));
            && Kept(s, r) && r.idle == s.idle && r.queue == s.queue && r.started == s.started
            && r.completed == s.completed + [s.workers[w].task]
            && (s.quit && s.queue == [] ==> LeftLast(s, r, w, t))
            && (!(s.quit && s.queue == []) ==>
                  && r.destroyer == s.destroyer
                  && r.count == s.count - (if s.workers[w].timedOut then 1 else 0)
                  && r.workers == s.workers[w := if s.workers[w].timedOut then Exited else LoopTop])
  {
  }

  // ----- the wait and the destroyer -----

  /** Destroy sets quit, wakes every sleeper if anybody is idle, and waits if any worker is alive. */
  lemma DestroyEffect(s: State)
    requires Enabled(s, Destroy)
    ensures var r := Apply(s, Destroy);
            && r == s.(quit := true, workers := r.workers, destroyer := if s.count > 0 then Waiting else Returned)
            && |r.workers| == |s.workers|
            && forall i :: 0 <= i < |s.workers| ==>
                 r.workers[i] == if s.workers[i].Blocked? && s.count > 0 && s.idle > 0 then Woken else s.workers[i]
  {
  }

  /** What the condition variable does to one thread, and the destroyer's test of count, change that thread alone. */
  lemma OtherEffects(s: State, e: Event)
    requires Enabled(s, e) && (e.Expire? || e.Spurious? || e.DestroyerSpurious? || e.DestroyerTest?)
    ensures e.Expire? ==> Apply(s, e) == s.(workers := s.workers[e.w := Expired])
    ensures e.Spurious? ==> Apply(s, e) == s.(workers := s.workers[e.w := Woken])
    ensures e.DestroyerSpurious? ==> Apply(s, e) == s.(destroyer := Signalled)
    ensures e.DestroyerTest? ==> Apply(s, e) == s.(destroyer := if s.count > 0 then Waiting else Returned)
  {
  }

  // ----- when an event may happen -----

  /** A signal may reach whichever waiter it likes, and nobody only if there is none. */
  lemma AnyWaiter(s: State, task: Task, t: Waiter)
    ensures Enabled(s, Add(task, t)) <==> !s.quit && exists ws, d :: Woke(t, s.workers, s.destroyer, ws, d)
  {
    var q := Signal(s, t);
    assert Enabled(s, Add(task, t)) ==> Woke(t, s.workers, s.destroyer, q.workers, q.destroyer);
  }

  /** For each thread, what it or the condition variable may do next depends only on where it stands. */
  lemma MayHappenIff(s: State, w: nat, task: Task)
    ensures (exists t :: Enabled(s, Add(task, t))) <==> !s.quit
    ensures (exists t :: Enabled(s, Enter(w, t))) <==> w < |s.workers| && s.workers[w].LoopTop?
    ensures (exists t :: Enabled(s, Resume(w, t))) <==> w < |s.workers| && s.workers[w].Woken?
    ensures (exists t :: Enabled(s, Late(w, t))) <==> w < |s.workers| && s.workers[w].Expired?
    ensures (exists t :: Enabled(s, Timeout(w, t))) <==> w < |s.workers| && s.workers[w].Blocked?
    ensures (exists t :: Enabled(s, Finish(w, t))) <==> w < |s.workers| && s.workers[w].Running?
    ensures Enabled(s, Expire(w)) <==> w < |s.workers| && s.workers[w].Blocked?
    ensures Enabled(s, Spurious(w)) <==> w < |s.workers| && s.workers[w].Blocked?
    ensures Enabled(s, Destroy) <==> s.destroyer.Outside? && !s.quit
    ensures Enabled(s, DestroyerSpurious) <==> s.destroyer.Waiting?
    ensures Enabled(s, DestroyerTest) <==> s.destroyer.Signalled?
  {
    var t := SomeTarget(s.workers, s.destroyer);
    assert !s.quit ==> Enabled(s, Add(task, t));
    if w < |s.workers| {
      var u := SomeTarget(s.workers[w := Exited], s.destroyer);
      assert s.workers[w].LoopTop? ==> Enabled(s, Enter(w, u));
      assert s.workers[w].Woken? ==> Enabled(s, Resume(w, u));
      assert s.workers[w].Expired? ==> Enabled(s, Late(w, u));
      assert s.workers[w].Blocked? ==> Enabled(s, Timeout(w, u));
      assert s.workers[w].Running? ==> Enabled(s, Finish(w, u));
    }
  }
}
