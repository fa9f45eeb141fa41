/**
 The thread pool of Thread_pool/thread_pool.c as a state machine. One event is one critical
 section of a thread, or one thing the POSIX condition variable may do to a waiting thread.

 Condition variables have Mesa semantics: a signal makes a waiter runnable and no more; the waiter
 takes the mutex again later and tests its condition again, and it may also wake for no reason.
 A wait whose deadline passes stops being a waiter at that moment (`Expire`) and takes the mutex
 back some time later (`Late`). `Timeout` is the case where nothing happens in between.
 */
module Protocol {

  datatype Task = Task(run: int, arg: int)

  /** Where a worker stands between two critical sections. */
  datatype Phase =
    | LoopTop                               // about to lock, at the head of its loop
    | Blocked                               // inside the timed wait, on the condition variable
    | Woken                                 // woken, has not got the mutex back yet
    | Expired                               // deadline passed, has not got the mutex back yet
    | Running(task: Task, timedOut: bool)   // runs a task, without the mutex
    | Exited

  /** Where the thread that calls destroy stands. */
  datatype Caller = Outside | Waiting | Signalled | Returned

  /** The thread that a signal reaches: the workers and the destroyer share one condition variable. */
  datatype Waiter = Nobody | Worker(id: nat) | Destroyer

  /** `submitted`, `started` and `completed` record what happened; no event depends on them. */
  datatype State = State(
    maxThread: int, queue: seq<Task>, count: int, idle: int, quit: bool,
    workers: seq<Phase>, destroyer: Caller,
    submitted: seq<Task>, started: seq<Task>, completed: seq<Task>)

  /** In the events that may signal, `t` is the thread that the signal reaches. */
  datatype Event =
    | Add(task: Task, t: Waiter)
    | Enter(w: nat, t: Waiter)        // LoopTop locks
    | Resume(w: nat, t: Waiter)       // Woken locks
    | Late(w: nat, t: Waiter)         // Expired locks
    | Timeout(w: nat, t: Waiter)      // deadline passes and the mutex is taken at once
    | Finish(w: nat, t: Waiter)       // task done, locks
    | Expire(w: nat)                  // deadline passes, mutex not taken yet
    | Spurious(w: nat)                // a worker wakes for no reason
    | Destroy
    | DestroyerSpurious
    | DestroyerTest                   // the destroyer has the mutex back and tests count

  function Init(maxThread: int): State {
    State(maxThread, [], 0, 0, false, [], Outside, [], [], [])
  }

  // ----- the condition variable -----

  /**
   The waiting threads are the blocked workers and the waiting destroyer; a signal reaches one of them if there
   is one.
   */
  ghost predicate ValidTarget(ws: seq<Phase>, d: Caller, t: Waiter) {
    match t
    case Nobody => (forall i :: 0 <= i < |ws| ==> !ws[i].Blocked?) && !d.Waiting?
    case Worker(id) => id < |ws| && ws[id].Blocked?
    case Destroyer => d.Waiting?
  }

  function Signal(s: State, t: Waiter): State {
    match t
    case Nobody => s
    case Worker(id) => if id < |s.workers| then s.(workers := s.workers[id := Woken]) else s
    case Destroyer => s.(destroyer := Signalled)
  }

  function WakeAll(ws: seq<Phase>): (r: seq<Phase>)
    ensures |r| == |ws|
    ensures forall i :: 0 <= i < |ws| ==> r[i] == if ws[i].Blocked? then Woken else ws[i]
  {
    if ws == [] then []
    else WakeAll(ws[..|ws| - 1]) + [if ws[|ws| - 1].Blocked? then Woken else ws[|ws| - 1]]
  }

  // ----- the worker -----

  /** The end of a worker's round, with the mutex: leave the pool or go round again. */
  function Leave(s: State, w: nat, timedOut: bool, t: Waiter): State
    requires w < |s.workers|
  {
    var gone := s.(count := s.count - 1, workers := s.workers[w := Exited]);
    if s.quit && s.queue == [] then
      if gone.count == 0 then Signal(gone, t) else gone
    else if timedOut then gone
    else s.(workers := s.workers[w := LoopTop])
  }

  /** A worker counted as idle holds the mutex: wait, or take a task, or leave. */
  function Attempt(s: State, w: nat, timedOut: bool, t: Waiter): State
    requires w < |s.workers|
  {
    if s.queue == [] && !s.quit && !timedOut then
      s.(workers := s.workers[w := Blocked])
    else if s.queue != [] then
      s.(idle := s.idle - 1, queue := s.queue[1..], started := s.started + [s.queue[0]],
         workers := s.workers[w := Running(s.queue[0], timedOut)])
    else
      Leave(s.(idle := s.idle - 1), w, timedOut, t)
  }

  function AddTask(s: State, task: Task, t: Waiter): State {
    var q := s.(queue := s.queue + [task], submitted := s.submitted + [task]);
    if s.idle > 0 then Signal(q, t)
    else if s.count < s.maxThread then q.(count := s.count + 1, workers := s.workers + [LoopTop])
    else q
  }

  function StartDestroy(s: State): State {
    var q := s.(quit := true);
    if s.count > 0 then
      q.(workers := if s.idle > 0 then WakeAll(s.workers) else s.workers, destroyer := Waiting)
    else
      q.(destroyer := Returned)
  }

  // ----- events -----

  ghost predicate Enabled(s: State, e: Event) {
    match e
    case Add(_, t) => !s.quit && ValidTarget(s.workers, s.destroyer, t)
    case Enter(w, t) =>
      w < |s.workers| && s.workers[w].LoopTop? && ValidTarget(s.workers[w := Exited], s.destroyer, t)
    case Resume(w, t) =>
      w < |s.workers| && s.workers[w].Woken? && ValidTarget(s.workers[w := Exited], s.destroyer, t)
    case Late(w, t) =>
      w < |s.workers| && s.workers[w].Expired? && ValidTarget(s.workers[w := Exited], s.destroyer, t)
    case Timeout(w, t) =>
      w < |s.workers| && s.workers[w].Blocked? && ValidTarget(s.workers[w := Exited], s.destroyer, t)
    case Finish(w, t) =>
      w < |s.workers| && s.workers[w].Running? && ValidTarget(s.workers[w := Exited], s.destroyer, t)
    case Expire(w) => w < |s.workers| && s.workers[w].Blocked?
    case Spurious(w) => w < |s.workers| && s.workers[w].Blocked?
    case Destroy => s.destroyer.Outside? && !s.quit
    case DestroyerSpurious => s.destroyer.Waiting?
    case DestroyerTest => s.destroyer.Signalled?
  }

  ghost function Apply(s: State, e: Event): State
    requires Enabled(s, e)
  {
    match e
    case Add(task, t) => AddTask(s, task, t)
    case Enter(w, t) => Attempt(s.(idle := s.idle + 1), w, false, t)
    case Resume(w, t) => Attempt(s, w, false, t)
    case Late(w, t) => Attempt(s, w, true, t)
    case Timeout(w, t) => Attempt(s, w, true, t)
    case Finish(w, t) =>
      Leave(s.(completed := s.completed + [s.workers[w].task]), w, s.workers[w].timedOut, t)
    case Expire(w) => s.(workers := s.workers[w := Expired])
    case Spurious(w) => s.(workers := s.workers[w := Woken])
    case Destroy => StartDestroy(s)
    case DestroyerSpurious => s.(destroyer := Signalled)
    case DestroyerTest => s.(destroyer := if s.count > 0 then Waiting else Returned)
  }

  ghost predicate IsRun(s: State, es: seq<Event>)
    decreases |es|
  {
    es == [] || (Enabled(s, es[0]) && IsRun(Apply(s, es[0]), es[1..]))
  }

  ghost function After(s: State, es: seq<Event>): State
    requires IsRun(s, es)
    decreases |es|
  {
    if es == [] then s else After(Apply(s, es[0]), es[1..])
  }

  // ----- counting workers -----

  datatype Kind = Live | Awake | InWait | Carrier | Asleep | Tardy | LastTask | Busy | Runs(task: Task)

  /** A carrier comes back to look at the queue before it leaves the pool. */
  predicate Is(k: Kind, p: Phase) {
    match k
    case Live => !p.Exited?
    case Awake => !p.Exited? && !p.Blocked?
    case InWait => p.Blocked? || p.Woken? || p.Expired?
    case Carrier => p.LoopTop? || p.Woken? || (p.Running? && !p.timedOut)
    case Asleep => p.Blocked?
    case Tardy => p.Expired?
    case LastTask => p.Running? && p.timedOut
    case Busy => p.Running?
    case Runs(x) => p.Running? && p.task == x
  }

  function Bit(k: Kind, p: Phase): nat { if Is(k, p) then 1 else 0 }

  function Count(ws: seq<Phase>, k: Kind): nat {
    if ws == [] then 0 else Count(ws[..|ws| - 1], k) + Bit(k, ws[|ws| - 1])
  }

  lemma {:induction false} CountUpdate(ws: seq<Phase>, i: nat, p: Phase, k: Kind)
    requires i < |ws|
    ensures Count(ws[i := p], k) == Count(ws, k) - Bit(k, ws[i]) + Bit(k, p)
  {
    var n := |ws| - 1;
    if i < n {
      assert ws[i := p][..n] == ws[..n][i := p];
      CountUpdate(ws[..n], i, p, k);
    } else {
      assert ws[i := p][..n] == ws[..n];
    }
  }

  lemma CountAppend(ws: seq<Phase>, p: Phase, k: Kind)
    ensures Count(ws + [p], k) == Count(ws, k) + Bit(k, p)
  {
    assert (ws + [p])[..|ws|] == ws;
  }

  lemma {:induction false} CountWakeAll(ws: seq<Phase>, k: Kind)
    ensures Count(WakeAll(ws), k) ==
            if k == Carrier || k == Awake then Count(ws, k) + Count(ws, Asleep)
            else if k == Asleep then 0
            else Count(ws, k)
  {
    if ws != [] {
      CountWakeAll(ws[..|ws| - 1], k);
      assert WakeAll(ws)[..|ws| - 1] == WakeAll(ws[..|ws| - 1]);
    }
  }

  /** A count is positive exactly when some worker is of that kind. */
  lemma {:induction false} CountPositive(ws: seq<Phase>, k: Kind)
    ensures Count(ws, k) > 0 <==> exists i :: 0 <= i < |ws| && Is(k, ws[i])
  {
    if ws != [] {
      var n := |ws| - 1;
      CountPositive(ws[..n], k);
      if i :| 0 <= i < |ws| && Is(k, ws[i]) {
        if i < n { assert Is(k, ws[..n][i]); }
      }
      if Count(ws[..n], k) > 0 {
        var j :| 0 <= j < n && Is(k, ws[..n][j]);
        assert Is(k, ws[j]);
      } else if Is(k, ws[n]) {
      }
    }
  }

  /** A live worker is a carrier, asleep, tardy or on its last task. */
  lemma {:induction false} CountSplit(ws: seq<Phase>)
    ensures Count(ws, Live) ==
            Count(ws, Carrier) + Count(ws, Asleep) + Count(ws, Tardy) + Count(ws, LastTask)
    ensures Count(ws, Live) == Count(ws, Awake) + Count(ws, Asleep)
    ensures Count(ws, Asleep) + Count(ws, Tardy) <= Count(ws, InWait)
    ensures Count(ws, InWait) <= Count(ws, Asleep) + Count(ws, Tardy) + Count(ws, Carrier)
    ensures Count(ws, Live) >= Count(ws, InWait) + Count(ws, Busy)
    ensures forall x :: Count(ws, Runs(x)) <= Count(ws, Busy)
  {
    if ws != [] { CountSplit(ws[..|ws| - 1]); }
  }
}
