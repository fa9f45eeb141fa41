/**
 The pool as the program keeps it: a record updated in place under the mutex, with a linked list of
 heap nodes from `first` to `last`. Each method is one critical section; its contract says that it
 makes exactly the step that the protocol prescribes, and that the list stays a list.

 `issued` records the nodes that the allocator handed out, `freed` those given back to it. Nodes are
 touched only through `Next` and `SetNext`, which demand that the node is not freed: `last` dangles
 while the list is empty.
 */
module ThreadPoolRecord {
  import opened Protocol
  import opened CounterInvariant
  import Service
  import Shutdown

  class TaskNode {
    const task: Task
    var next: TaskNode?

    constructor (task: Task)
      ensures this.task == task && next == null
    {
      this.task := task;
      next := null;
    }
  }

  lemma OthersStay<T>(h: seq<T>, w: nat, n: T)
    requires w < |h|
    ensures n in h[w := n] && forall x :: x in h && x != h[w] ==> x in h[w := n]
  {
    assert h[w := n][w] == n;
    forall x | x in h && x != h[w] ensures x in h[w := n] {
      var i :| 0 <= i < |h| && h[i] == x;
      assert h[w := n][i] == x;
    }
  }

  class ThreadPool {
    var first: TaskNode?
    var last: TaskNode?
    var count: int
    const maxThread: int
    var quit: bool
    var idle: int

    // the threads: program counter, and the local variable `task` of each worker
    var workers: seq<Phase>
    var held: seq<TaskNode?>
    var destroyer: Caller

    ghost var spine: seq<TaskNode>
    ghost var issued: set<TaskNode>
    ghost var freed: set<TaskNode>
    ghost var submitted: seq<Task>
    ghost var started: seq<Task>
    ghost var completed: seq<Task>

    static ghost function Tasks(nodes: seq<TaskNode>): (r: seq<Task>)
      ensures |r| == |nodes|
    {
      seq(|nodes|, i requires 0 <= i < |nodes| => nodes[i].task)
    }

    ghost function View(): State
      reads this
    {
      State(maxThread, Tasks(spine), count, idle, quit, workers, destroyer, submitted, started, completed)
    }

    /** `first` heads an acyclic chain that ends at `last`; an empty chain leaves `last` unconstrained. */
    ghost predicate IsList()
      reads `first, `last, `spine, spine`next
    {
      && (forall i, j :: 0 <= i < j < |spine| ==> spine[i] != spine[j])
      && (forall i :: 0 <= i < |spine| - 1 ==> spine[i].next == spine[i + 1])
      && first == (if spine == [] then null else spine[0])
      && (spine != [] ==> last == spine[|spine| - 1] && spine[|spine| - 1].next == null)
    }

    /** A node is in the list, held by one worker, or freed; never two of these. */
    ghost predicate Owned()
      reads `spine, `freed, `held, `workers
    {
      && (forall n :: n in spine ==> n !in freed)
      && |held| == |workers|
      && (forall w :: 0 <= w < |held| ==> (held[w] != null <==> workers[w].Running?))
      && (forall w :: 0 <= w < |held| && held[w] != null ==>
            held[w].task == workers[w].task && held[w] !in spine && held[w] !in freed)
      && (forall v, w :: 0 <= v < w < |held| && held[v] != null ==> held[v] != held[w])
    }

    /** Every node ever allocated is in one of the three places. */
    ghost predicate NoLeak()
      reads `spine, `issued, `freed, `held
    {
      && (forall n :: n in spine ==> n in issued)
      && freed <= issued
      && (forall w :: 0 <= w < |held| && held[w] != null ==> held[w] in issued)
      && (forall n :: n in issued ==> n in spine || n in freed || n in held)
    }

    ghost predicate Valid()
      reads this, spine
    {
      IsList() && Owned() && NoLeak()
    }

    /** Dereferences. */
    method Next(n: TaskNode) returns (next: TaskNode?)
      requires n !in freed
      ensures next == n.next
    {
      next := n.next;
    }

    method SetNext(n: TaskNode, next: TaskNode)
      requires n !in freed
      modifies n
      ensures n.next == next
    {
      n.next := next;
    }

    constructor (threads: int)
      ensures Valid() && View() == Init(threads) && issued == {}
    {
      first := null;
      last := null;
      count := 0;
      idle := 0;
      maxThread := threads;
      quit := false;
      workers := [];
      held := [];
      destroyer := Outside;
      spine, issued, freed, submitted, started, completed := [], {}, {}, [], [], [];
    }

    // ----- condition variable and thread creation -----

    method SignalTo(t: Waiter)
      requires Valid() && ValidTarget(workers, destroyer, t)
      modifies this`workers, this`destroyer
      ensures Valid() && View() == Signal(old(View()), t)
    {
      match t
      case Nobody =>
      case Worker(id) => workers := workers[id := Woken];
      case Destroyer => destroyer := Signalled;
    }

    method CreateWorker()
      requires Valid()
      modifies this`workers, this`held
      ensures Valid() && View() == old(View()).(workers := old(workers) + [LoopTop])
    {
      workers := workers + [LoopTop];
      held := held + [null];
    }

    // ----- threadPool_addtask -----

    /** Puts a node at the tail. */
    method Link(newtask: TaskNode)
      requires IsList() && newtask !in spine && newtask.next == null
      requires spine != [] ==> last !in freed
      modifies this`first, this`last, this`spine, spine
      ensures IsList() && spine == old(spine) + [newtask]
    {
      if first == null {
        first := newtask;
      } else {
        SetNext(last, newtask);
      }
      last := newtask;
      spine := spine + [newtask];
    }

    method Append(task: Task)
      requires Valid()
      modifies this`first, this`last, this`spine, this`issued, this`submitted, spine
      ensures Valid()
      ensures spine != [] && spine[..|spine| - 1] == old(spine)
      ensures fresh(spine[|spine| - 1]) && issued == old(issued) + {spine[|spine| - 1]}
      ensures Tasks(spine) == old(Tasks(spine)) + [task] && submitted == old(submitted) + [task]
    {
      var newtask := new TaskNode(task);
      issued := issued + {newtask};
      submitted := submitted + [task];
      Link(newtask);
    }

    method AddTask(task: Task, t: Waiter)
      requires Valid() && Enabled(View(), Add(task, t))
      modifies this, spine
      ensures Valid() && View() == Apply(old(View()), Add(task, t))
      ensures spine != [] && spine[..|spine| - 1] == old(spine)
      ensures fresh(spine[|spine| - 1]) && issued == old(issued) + {spine[|spine| - 1]}
      ensures freed == old(freed)
    {
      ghost var before := View();
      Append(task);
      assert View() == before.(queue := before.queue + [task], submitted := before.submitted + [task]);
      if idle > 0 {
        SignalTo(t);
      } else if count < maxThread {
        CreateWorker();
        count := count + 1;
      }
    }

    // ----- thread_routine -----

    /** Unlinks the head for worker w. `last` is left as it is. */
    method Pop(w: nat, timedOut: bool)
      requires Valid() && w < |workers| && held[w] == null && first != null
      modifies this`first, this`spine, this`held, this`workers, this`started
      ensures Valid()
      ensures spine == old(spine)[1..] && started == old(started) + [old(Tasks(spine))[0]]
      ensures workers == old(workers)[w := Running(old(Tasks(spine))[0], timedOut)]
    {
      var task: TaskNode := first;
      first := Next(task);
      assert Tasks(spine)[1..] == Tasks(spine[1..]);
      assert spine == [task] + spine[1..];
      OthersStay(held, w, task);
      spine := spine[1..];
      held := held[w := task];
      workers := workers[w := Running(task.task, timedOut)];
      started := started + [task.task];
    }

    /** The worker leaves the pool, or goes round again. */
    method EndRound(w: nat, to: Phase)
      requires Valid() && w < |workers| && held[w] == null && (to.Exited? || to.LoopTop?)
      modifies this`workers, this`count
      ensures Valid()
      ensures View() == old(View()).(
          count := old(count) - if to.Exited? then 1 else 0, workers := old(workers)[w := to])
    {
      if to.Exited? {
        count := count - 1;
      }
      workers := workers[w := to];
    }

    method Depart(w: nat, timedOut: bool, t: Waiter)
      requires Valid() && w < |workers| && held[w] == null
      requires ValidTarget(workers[w := Exited], destroyer, t)
      modifies this`workers, this`destroyer, this`count
      ensures Valid() && View() == Leave(old(View()), w, timedOut, t)
    {
      if quit && first == null {
        EndRound(w, Exited);
        if count == 0 {
          SignalTo(t);
        }
      } else if timedOut {
        EndRound(w, Exited);
      } else {
        EndRound(w, LoopTop);
      }
    }

    /** The three ways on from the test of the wait loop, each one branch of the protocol's round. */
    method Wait(w: nat, t: Waiter)
      requires Valid() && w < |workers| && held[w] == null
      requires first == null && !quit
      modifies this`workers
      ensures Valid() && View() == Attempt(old(View()), w, false, t)
    {
      workers := workers[w := Blocked];
    }

    method Take(w: nat, timedOut: bool, t: Waiter)
      requires Valid() && w < |workers| && held[w] == null && first != null
      modifies this`first, this`spine, this`held, this`workers, this`started, this`idle
      ensures Valid() && View() == Attempt(old(View()), w, timedOut, t) && spine == old(spine)[1..]
    {
      idle := idle - 1;
      Pop(w, timedOut);
    }

    method Quit(w: nat, timedOut: bool, t: Waiter)
      requires Valid() && w < |workers| && held[w] == null && first == null && (quit || timedOut)
      requires ValidTarget(workers[w := Exited], destroyer, t)
      modifies this`workers, this`destroyer, this`count, this`idle
      ensures Valid() && View() == Attempt(old(View()), w, timedOut, t)
    {
      idle := idle - 1;
      Depart(w, timedOut, t);
    }

    /** From the test of the wait loop to the next unlock or wait. */
    method Round(w: nat, timedOut: bool, t: Waiter)
      requires Valid() && w < |workers| && held[w] == null
      requires ValidTarget(workers[w := Exited], destroyer, t)
      modifies this
      ensures Valid() && View() == Attempt(old(View()), w, timedOut, t)
      ensures issued == old(issued) && freed == old(freed) && forall n :: n in spine ==> n in old(spine)
    {
      if first == null && !quit && !timedOut {
        Wait(w, t);
      } else if first != null {
        Take(w, timedOut, t);
      } else {
        Quit(w, timedOut, t);
      }
    }

    method LockAtTop(w: nat, t: Waiter)
      requires Valid() && Enabled(View(), Enter(w, t))
      modifies this
      ensures Valid() && View() == Apply(old(View()), Enter(w, t))
      ensures issued == old(issued) && freed == old(freed) && forall n :: n in spine ==> n in old(spine)
    {
      idle := idle + 1;
      Round(w, false, t);
    }

    method LockWoken(w: nat, t: Waiter)
      requires Valid() && Enabled(View(), Resume(w, t))
      modifies this
      ensures Valid() && View() == Apply(old(View()), Resume(w, t))
      ensures issued == old(issued) && freed == old(freed) && forall n :: n in spine ==> n in old(spine)
    {
      Round(w, false, t);
    }

    method LockExpired(w: nat, t: Waiter)
      requires Valid() && Enabled(View(), Late(w, t))
      modifies this
      ensures Valid() && View() == Apply(old(View()), Late(w, t))
      ensures issued == old(issued) && freed == old(freed) && forall n :: n in spine ==> n in old(spine)
    {
      Round(w, true, t);
    }

    method WaitEnds(w: nat, timedOut: bool)
      requires Valid() && w < |workers| && workers[w].Blocked?
      modifies this`workers
      ensures Valid() && View() == Apply(old(View()), if timedOut then Expire(w) else Spurious(w))
    {
      workers := workers[w := if timedOut then Expired else Woken];
    }

    /** The task has returned and its node is freed, once. */
    method FreeTask(w: nat)
      requires Valid() && w < |workers| && workers[w].Running?
      modifies this`freed, this`held, this`workers, this`completed
      ensures Valid() && w < |held| && held[w] == null
      ensures freed == old(freed) + {old(held[w])} && old(held[w]) !in old(freed)
      ensures workers == old(workers)[w := LoopTop] && completed == old(completed) + [old(workers[w].task)]
    {
      completed := completed + [workers[w].task];
      freed := freed + {held[w]};
      OthersStay(held, w, null);
      held := held[w := null];
      workers := workers[w := LoopTop];
    }

    /** The worker locks again and ends its round. */
    method LockAfterTask(w: nat, t: Waiter)
      requires Valid() && Enabled(View(), Finish(w, t))
      modifies this
      ensures Valid() && View() == Apply(old(View()), Finish(w, t))
      ensures freed == old(freed) + {old(held[w])} && old(held[w]) !in old(freed)
      ensures issued == old(issued) && spine == old(spine)
    {
      var timedOut := workers[w].timedOut;
      ghost var before := View();
      FreeTask(w);
      assert workers[w := Exited] == before.workers[w := Exited];
      PhaseForgotten(before.(completed := completed), w, LoopTop, timedOut, t);
      Depart(w, timedOut, t);
    }

    // ----- threadPool_destroy -----

    /** Up to the first wait, or to the end when no worker is alive. */
    method BeginDestroy()
      requires Valid() && Enabled(View(), Destroy)
      modifies this`workers, this`quit, this`destroyer
      ensures Valid() && View() == Apply(old(View()), Destroy)
    {
      quit := true;
      if count > 0 {
        if idle > 0 {
          workers := WakeAll(workers);  // the broadcast
        }
        destroyer := Waiting;
      } else {
        destroyer := Returned;
      }
    }

    method LockInDestroy()
      requires Valid() && Enabled(View(), DestroyerTest)
      modifies this`destroyer
      ensures Valid() && View() == Apply(old(View()), DestroyerTest)
    {
      destroyer := if count > 0 then Waiting else Returned;
    }

    method DestroyerWakes()
      requires Valid() && Enabled(View(), DestroyerSpurious)
      modifies this`destroyer
      ensures Valid() && View() == Apply(old(View()), DestroyerSpurious)
    {
      destroyer := Signalled;
    }

    /**
     When destroy has returned, every node is freed, none is lost, if and only if the queue was served when
     destroy was called.
     */
    lemma AllFreedIff(s: State, es: seq<Event>)
      requires Valid() && Shutdown.Reachable(s) && Enabled(s, Destroy) && IsRun(Apply(s, Destroy), es)
      requires View() == After(Apply(s, Destroy), es) && destroyer.Returned?
      ensures freed == issued <==> Service.Served(s)
      ensures issued == freed + (set n | n in spine)
    {
      Shutdown.DrainIff(s, es);
      forall w | 0 <= w < |held| ensures held[w] == null { assert View().workers[w].Exited?; }
      assert spine == [] <==> View().queue == [];
      if spine != [] { assert spine[0] in issued && spine[0] !in freed; }
    }

    // ----- whole runs -----

    /** Any event, carried out on the record. */
    method Step(e: Event)
      requires Valid() && Enabled(View(), e)
      modifies this, spine
      ensures Valid() && View() == Apply(old(View()), e)
      ensures forall i :: 0 <= i < |spine| ==> spine[i] in old(spine) || fresh(spine[i])
    {
      match e
      case Add(task, t) => AddTask(task, t);
      case Enter(w, t) => LockAtTop(w, t);
      case Resume(w, t) => LockWoken(w, t);
      case Late(w, t) => LockExpired(w, t);
      case Timeout(w, t) =>
        Service.TimeoutIsExpireThenLate(View(), w, t);
        WaitEnds(w, true);
        LockExpired(w, t);
      case Finish(w, t) => LockAfterTask(w, t);
      case Expire(w) => WaitEnds(w, true);
      case Spurious(w) => WaitEnds(w, false);
      case Destroy => BeginDestroy();
      case DestroyerSpurious => DestroyerWakes();
      case DestroyerTest => LockInDestroy();
    }

    method Run(es: seq<Event>)
      requires Valid() && IsRun(View(), es)
      modifies this, spine
      ensures Valid() && View() == After(old(View()), es)
      ensures forall i :: 0 <= i < |spine| ==> spine[i] in old(spine) || fresh(spine[i])
    {
      var i := 0;
      assert es[0..] == es;
      while i < |es|
        invariant 0 <= i <= |es| && Valid()
        invariant IsRun(View(), es[i..]) && After(View(), es[i..]) == After(old(View()), es)
        invariant forall k :: 0 <= k < |spine| ==> spine[k] in old(spine) || fresh(spine[k])
      {
        assert es[i..][1..] == es[i + 1..];
        Step(es[i]);
        i := i + 1;
      }
    }
  }

  /**
   Every run of the protocol is a run of the record: the list stays a list, and no node is freed twice or used
   when freed.
   */
  method Execute(maxThread: int, es: seq<Event>) returns (pool: ThreadPool)
    requires IsRun(Init(maxThread), es)
    ensures fresh(pool) && pool.Valid() && pool.View() == After(Init(maxThread), es)
    ensures forall i :: 0 <= i < |pool.spine| ==> fresh(pool.spine[i])
  {
    pool := new ThreadPool(maxThread);
    pool.Run(es);
  }

  /**
   A whole life of a pool, to the return of destroy: every node is freed if and only if the queue was served at
   the call.
   */
  method ExecuteShutdown(maxThread: int, before: seq<Event>, es: seq<Event>) returns (pool: ThreadPool)
    requires maxThread >= 1 && IsRun(Init(maxThread), before)
    requires var s := After(Init(maxThread), before); Enabled(s, Destroy) && IsRun(Apply(s, Destroy), es)
    requires After(Apply(After(Init(maxThread), before), Destroy), es).destroyer.Returned?
    ensures pool.Valid() && pool.View() == After(Apply(After(Init(maxThread), before), Destroy), es)
    ensures pool.freed == pool.issued <==> Service.Served(After(Init(maxThread), before))
    ensures pool.issued == pool.freed + (set n | n in pool.spine)
    ensures |pool.spine| == Service.Lost(After(Init(maxThread), before))
  {
    pool := Execute(maxThread, before);
    ghost var s := pool.View();
    assert Shutdown.Reachable(s);
    pool.BeginDestroy();
    pool.Run(es);
    pool.AllFreedIff(s, es);
    Shutdown.DrainIff(s, es);
    assert |pool.View().queue| == |pool.spine|;
  }
}
