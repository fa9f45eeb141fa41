/**
 The bounded buffer of LinuxChat/pool/pool.cpp: a circular array between one producer and one
 consumer, guarded by two counting semaphores and no mutex. Each event is one access to shared
 state, so the two threads interleave between any two of them. `puts` and `gets` record the values
 stored and fetched; no event depends on them.
 */
module RingProtocol {

  datatype Producer = Out | Entered(v: string) | Stored | Advanced
  datatype Consumer = Out | Entered | Fetched | Advanced

  datatype State = State(
    slots: seq<string>, productStep: nat, consumStep: nat, blank: int, data: int,
    prod: Producer, cons: Consumer, puts: seq<string>, gets: seq<string>)

  datatype Event =
    | PutWait(v: string)   // sem_wait(_blank) returns
    | PutStore             // pool[productStep] = inmsg
    | PutAdvance           // productStep moves on
    | PutPost              // sem_post(_data)
    | GetWait | GetFetch | GetAdvance | GetPost

  function Init(slots: seq<string>): State {
    State(slots, 0, 0, |slots|, 0, Producer.Out, Consumer.Out, [], [])
  }

  // ----- arithmetic of circular indices -----

  /** i modulo n, by repeated subtraction. */
  function Wrap(i: int, n: int): (r: int)
    ensures i >= 0 ==> r >= 0
    ensures n > 0 ==> r < n
  {
    if n <= 0 || i < n then i else Wrap(i - n, n)
  }

  lemma {:induction false} MulAtLeast(z: nat, n: nat)
    ensures z >= 1 ==> z * n >= n
  {
    if z >= 1 { assert z * n == (z - 1) * n + n; }
  }

  /** A number less than n above a multiple of n is the remainder. */
  lemma RemainderUnique(i: int, q: int, r: int, n: int)
    requires 0 <= r < n && i == q * n + r
    ensures i % n == r
  {
    var d, m := i / n, i % n;
    assert i == d * n + m;
    assert (d - q) * n == d * n - q * n && (q - d) * n == q * n - d * n;
    if d > q { MulAtLeast(d - q, n); } else { MulAtLeast(q - d, n); }
  }

  /** Wrap is the program's % on the indices that occur. */
  lemma {:induction false} WrapIsMod(i: nat, n: nat)
    requires n > 0
    ensures Wrap(i, n) == i % n
    decreases i
  {
    if i < n {
      RemainderUnique(i, 0, i, n);
    } else {
      WrapIsMod(i - n, n);
      var q := (i - n) / n;
      assert i == (q + 1) * n + (i - n) % n by { assert (q + 1) * n == q * n + n; }
      RemainderUnique(i, q + 1, (i - n) % n, n);
    }
  }

  lemma {:induction false} WrapAdd(a: nat, k: nat, n: nat)
    requires n > 0
    ensures Wrap(Wrap(a, n) + k, n) == Wrap(a + k, n)
    decreases a
  {
    if a >= n { WrapAdd(a - n, k, n); }
  }

  /** Two positions less than one turn apart are in different slots. */
  lemma {:induction false} WrapDistinct(a: nat, b: nat, n: nat)
    requires a < b < a + n
    ensures Wrap(a, n) != Wrap(b, n)
    decreases a
  {
    if a >= n { WrapDistinct(a - n, b - n, n); }
  }

  // ----- steps -----

  /** An index in range is needed for a store and a fetch; Inv gives it. */
  ghost predicate Enabled(s: State, e: Event) {
    match e
    case PutWait(_) => s.prod.Out? && s.blank > 0
    case PutStore => s.prod.Entered? && 0 <= s.productStep < |s.slots|
    case PutAdvance => s.prod.Stored? && |s.slots| > 0
    case PutPost => s.prod.Advanced?
    case GetWait => s.cons.Out? && s.data > 0
    case GetFetch => s.cons.Entered? && 0 <= s.consumStep < |s.slots|
    case GetAdvance => s.cons.Fetched? && |s.slots| > 0
    case GetPost => s.cons.Advanced?
  }

  ghost function Apply(s: State, e: Event): State
    requires Enabled(s, e)
  {
    match e
    case PutWait(v) => s.(blank := s.blank - 1, prod := Producer.Entered(v))
    case PutStore =>
      s.(slots := s.slots[s.productStep := s.prod.v], prod := Stored, puts := s.puts + [s.prod.v])
    case PutAdvance => s.(productStep := Wrap(s.productStep + 1, |s.slots|), prod := Producer.Advanced)
    case PutPost => s.(data := s.data + 1, prod := Producer.Out)
    case GetWait => s.(data := s.data - 1, cons := Consumer.Entered)
    case GetFetch => s.(cons := Fetched, gets := s.gets + [s.slots[s.consumStep]])
    case GetAdvance => s.(consumStep := Wrap(s.consumStep + 1, |s.slots|), cons := Consumer.Advanced)
    case GetPost => s.(blank := s.blank + 1, cons := Consumer.Out)
  }

  ghost predicate IsRun(s: State, es: seq<Event>)
    decreases |es|
  {
    es == [] || (Enabled(s, es[0]) && IsRun(Apply(s, es[0]), es[1..]))
  }

  ghost function After(s: State, es: seq<Event>): State
    requires IsRun(s, es)
    decreases |es|
  {
    if es == [] then s else After(Apply(s, es[0]), es[1..])
  }

  // ----- invariant -----

  function Inside(b: bool): int { if b then 1 else 0 }

  /** Slots stored and not yet fetched. */
  function Occupied(s: State): int {
    s.data + Inside(s.prod.Stored? || s.prod.Advanced?) + Inside(s.cons.Entered?)
  }

  /** The values from number `from` on still stand in their slots. */
  ghost predicate Holds(slots: seq<string>, puts: seq<string>, from: nat) {
    |slots| > 0 && forall k {:trigger puts[k]} :: from <= k < |puts| ==> slots[Wrap(k, |slots|)] == puts[k]
  }

  ghost predicate Inv(s: State) {
    var n := |s.slots|;
    && n > 0 && s.blank >= 0 && s.data >= 0
    && s.blank + s.data + Inside(!s.prod.Out?) + Inside(!s.cons.Out?) == n
    && |s.puts| - |s.gets| == Occupied(s)
    && s.gets == s.puts[..|s.gets|]
    && s.productStep == Wrap(|s.puts| - Inside(s.prod.Stored?), n)
    && s.consumStep == Wrap(|s.gets| - Inside(s.cons.Fetched?), n)
    && Holds(s.slots, s.puts, |s.gets|)
  }

  lemma InitInv(slots: seq<string>)
    requires |slots| > 0
    ensures Inv(Init(slots))
  {
  }

  /** A store into the slot behind the last value overwrites none of them while there is room. */
  lemma StoreHolds(slots: seq<string>, puts: seq<string>, from: nat, v: string)
    requires Holds(slots, puts, from) && from <= |puts| < from + |slots|
    ensures Holds(slots[Wrap(|puts|, |slots|) := v], puts + [v], from)
  {
    var n := |slots|;
    forall k | from <= k < |puts| + 1 ensures slots[Wrap(|puts|, n) := v][Wrap(k, n)] == (puts + [v])[k] {
      if k < |puts| {
        WrapDistinct(k, |puts|, n);
        assert slots[Wrap(k, n)] == puts[k];
      }
    }
  }

  lemma StoreKeeps(s: State)
    requires Inv(s) && Enabled(s, PutStore)
    ensures Inv(Apply(s, PutStore))
  {
    assert s.gets == Apply(s, PutStore).puts[..|s.gets|];
    StoreHolds(s.slots, s.puts, |s.gets|, s.prod.v);
  }

  lemma FetchKeeps(s: State)
    requires Inv(s) && Enabled(s, GetFetch)
    ensures Inv(Apply(s, GetFetch)) && s.slots[s.consumStep] == s.puts[|s.gets|]
  {
    assert s.slots[Wrap(|s.gets|, |s.slots|)] == s.puts[|s.gets|];
    assert s.puts[..|s.gets| + 1] == s.puts[..|s.gets|] + [s.puts[|s.gets|]];
  }

  lemma AdvanceProductKeeps(s: State)
    requires Inv(s) && Enabled(s, PutAdvance)
    ensures Inv(Apply(s, PutAdvance))
  {
    WrapAdd(|s.puts| - 1, 1, |s.slots|);
  }

  lemma AdvanceConsumKeeps(s: State)
    requires Inv(s) && Enabled(s, GetAdvance)
    ensures Inv(Apply(s, GetAdvance))
  {
    WrapAdd(|s.gets| - 1, 1, |s.slots|);
    assert Holds(s.slots, s.puts, |s.gets|);
  }

  lemma SemaphoreKeeps(s: State, e: Event)
    requires Inv(s) && Enabled(s, e) && (e.PutWait? || e.PutPost? || e.GetWait? || e.GetPost?)
    ensures Inv(Apply(s, e))
  {
  }

  lemma StepKeeps(s: State, e: Event)
    requires Inv(s) && Enabled(s, e)
    ensures Inv(Apply(s, e))
  {
    if e.PutStore? { StoreKeeps(s); }
    else if e.GetFetch? { FetchKeeps(s); }
    else if e.PutAdvance? { AdvanceProductKeeps(s); }
    else if e.GetAdvance? { AdvanceConsumKeeps(s); }
    else { SemaphoreKeeps(s, e); }
  }

  // ----- refinement of a bounded FIFO -----

  /** The queue that the array and the semaphores stand for; it does not mention the records. */
  ghost function Fifo(s: State): seq<string>
  {
    if s.slots == [] || Occupied(s) < 0 then []
    else
      var first := s.consumStep + Inside(s.cons.Fetched?);
      seq(Occupied(s), k requires 0 <= k < Occupied(s) => s.slots[Wrap(first + k, |s.slots|)])
  }

  lemma FifoAt(s: State, k: nat)
    requires Inv(s) && k < Occupied(s)
    ensures |Fifo(s)| == Occupied(s) && Fifo(s)[k] == s.puts[|s.gets| + k]
  {
    var n, f := |s.slots|, Inside(s.cons.Fetched?);
    WrapAdd(|s.gets| - f, f + k, n);
    assert s.slots[Wrap(|s.gets| + k, n)] == s.puts[|s.gets| + k];
  }

  lemma FifoIsPending(s: State)
    requires Inv(s)
    ensures Fifo(s) == s.puts[|s.gets|..]
  {
    forall k | 0 <= k < Occupied(s) ensures |Fifo(s)| == Occupied(s) && Fifo(s)[k] == s.puts[|s.gets| + k] {
      FifoAt(s, k);
    }
  }

  lemma StoreAppends(s: State)
    requires Inv(s) && Enabled(s, PutStore)
    ensures |Fifo(s)| < |s.slots| && Fifo(Apply(s, PutStore)) == Fifo(s) + [s.prod.v]
  {
    var r := Apply(s, PutStore);
    StoreKeeps(s);
    FifoIsPending(s);
    FifoIsPending(r);
    assert r.puts[|r.gets|..] == s.puts[|s.gets|..] + [s.prod.v];
  }

  lemma FetchTakesHead(s: State)
    requires Inv(s) && Enabled(s, GetFetch)
    ensures Fifo(s) != [] && Fifo(Apply(s, GetFetch)) == Fifo(s)[1..] && s.slots[s.consumStep] == Fifo(s)[0]
  {
    var r := Apply(s, GetFetch);
    FetchKeeps(s);
    FifoIsPending(s);
    FifoIsPending(r);
    assert r.puts[|r.gets|..] == s.puts[|s.gets|..][1..];
  }

  lemma OthersKeepFifo(s: State, e: Event)
    requires Inv(s) && Enabled(s, e) && !e.PutStore? && !e.GetFetch?
    ensures Fifo(Apply(s, e)) == Fifo(s)
  {
    StepKeeps(s, e);
    FifoIsPending(s);
    FifoIsPending(Apply(s, e));
  }

  /**
   A store puts at the tail of a queue that has room, a fetch takes the head of one that is not empty, nothing
   else changes it.
   */
  lemma RefinesFifo(s: State, e: Event)
    requires Inv(s) && Enabled(s, e)
    ensures Inv(Apply(s, e))
    ensures e.PutStore? ==> |Fifo(s)| < |s.slots| && Fifo(Apply(s, e)) == Fifo(s) + [s.prod.v]
    ensures e.GetFetch? ==> Fifo(s) != [] && Fifo(Apply(s, e)) == Fifo(s)[1..] && s.slots[s.consumStep] == Fifo(s)[0]
    ensures !e.PutStore? && !e.GetFetch? ==> Fifo(Apply(s, e)) == Fifo(s)
  {
    StepKeeps(s, e);
    if e.PutStore? { StoreAppends(s); } else if e.GetFetch? { FetchTakesHead(s); } else { OthersKeepFifo(s, e); }
  }

  lemma {:induction false} RunKeeps(s: State, es: seq<Event>)
    requires Inv(s) && IsRun(s, es)
    ensures Inv(After(s, es)) && |After(s, es).slots| == |s.slots|
    decreases |es|
  {
    if es != [] {
      StepKeeps(s, es[0]);
      RunKeeps(Apply(s, es[0]), es[1..]);
    }
  }

  /** The values that a run hands to PutData, and the one that is entered but not stored at its end. */
  ghost function Offered(es: seq<Event>): seq<string>
    decreases |es|
  {
    if es == [] then [] else (if es[0].PutWait? then [es[0].v] else []) + Offered(es[1..])
  }

  function InHand(s: State): seq<string> { if s.prod.Entered? then [s.prod.v] else [] }

  lemma {:induction false} PutsAreOffered(s: State, es: seq<Event>)
    requires IsRun(s, es)
    ensures After(s, es).puts + InHand(After(s, es)) == s.puts + InHand(s) + Offered(es)
    decreases |es|
  {
    if es != [] { PutsAreOffered(Apply(s, es[0]), es[1..]); }
  }

  lemma GotThenPending(s: State)
    requires Inv(s)
    ensures s.gets + Fifo(s) == s.puts && |Fifo(s)| <= |s.slots|
  {
    FifoIsPending(s);
    assert s.puts == s.puts[..|s.gets|] + s.puts[|s.gets|..];
  }

  /**
   Whatever the interleaving: what was fetched is what was offered, in order, with at most a full buffer
   outstanding.
   */
  lemma DeliversInOrder(slots: seq<string>, es: seq<Event>)
    requires |slots| > 0 && IsRun(Init(slots), es)
    ensures var s := After(Init(slots), es);
            s.gets + Fifo(s) + InHand(s) == Offered(es) && |Fifo(s)| <= |slots|
  {
    RunKeeps(Init(slots), es);
    PutsAreOffered(Init(slots), es);
    GotThenPending(After(Init(slots), es));
  }

  // ----- exclusion and progress -----

  ghost predicate Reachable(s: State) {
    exists slots, es :: |slots| > 0 && IsRun(Init(slots), es) && After(Init(slots), es) == s
  }

  lemma ReachableInv(s: State)
    requires Reachable(s)
    ensures Inv(s)
  {
    var slots, es :| |slots| > 0 && IsRun(Init(slots), es) && After(Init(slots), es) == s;
    RunKeeps(Init(slots), es);
  }

  /**
   Semaphore conservation: a slot is free, full, or in the hands of one thread. So the threads never touch one
   slot at once.
   */
  lemma SlotExclusion(s: State)
    requires Reachable(s)
    ensures s.blank + s.data + Inside(!s.prod.Out?) + Inside(!s.cons.Out?) == |s.slots|
    ensures s.prod.Entered? && s.cons.Entered? ==> s.productStep != s.consumStep
  {
    ReachableInv(s);
    if s.prod.Entered? && s.cons.Entered? { WrapDistinct(|s.gets|, |s.puts|, |s.slots|); }
  }

  /** The indices count the values put and got, modulo the capacity; a step that is under way is not counted yet. */
  lemma StepsCountPuts(s: State)
    requires Reachable(s)
    ensures |s.slots| > 0
    ensures s.productStep == (|s.puts| - Inside(s.prod.Stored?)) % |s.slots|
    ensures s.consumStep == (|s.gets| - Inside(s.cons.Fetched?)) % |s.slots|
  {
    ReachableInv(s);
    WrapIsMod(|s.puts| - Inside(s.prod.Stored?), |s.slots|);
    WrapIsMod(|s.gets| - Inside(s.cons.Fetched?), |s.slots|);
  }

  /** Between calls a PutData would wait exactly when the queue is full, and a GetData exactly when it is empty. */
  lemma WaitsIff(s: State, v: string)
    requires Reachable(s) && s.prod.Out? && s.cons.Out?
    ensures Enabled(s, PutWait(v)) <==> |Fifo(s)| < |s.slots|
    ensures Enabled(s, GetWait) <==> Fifo(s) != []
  {
    ReachableInv(s);
  }

  predicate ByConsumer(e: Event) { e.GetWait? || e.GetFetch? || e.GetAdvance? || e.GetPost? }

  /** When one thread has to wait, the other can take a step: there is no deadlock. */
  lemma NeverBothBlocked(s: State, v: string)
    requires Reachable(s)
    ensures s.prod.Out? && !Enabled(s, PutWait(v)) ==> exists e :: Enabled(s, e) && ByConsumer(e)
    ensures s.cons.Out? && !Enabled(s, GetWait) ==> exists e :: Enabled(s, e) && !ByConsumer(e)
  {
    ReachableInv(s);
    var c := if s.cons.Out? then GetWait else if s.cons.Entered? then GetFetch
             else if s.cons.Fetched? then GetAdvance else GetPost;
    var p := if s.prod.Out? then PutWait(v) else if s.prod.Entered? then PutStore
             else if s.prod.Stored? then PutAdvance else PutPost;
    assert s.prod.Out? && !Enabled(s, PutWait(v)) ==> Enabled(s, c) && ByConsumer(c);
    assert s.cons.Out? && !Enabled(s, GetWait) ==> Enabled(s, p) && !ByConsumer(p);
  }
}
