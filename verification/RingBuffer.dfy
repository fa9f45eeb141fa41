/** The buffer as the program keeps it: an array and indices updated in place, one step of one thread per method. */
module RingBufferRecord {
  import opened RingProtocol

  class Pool {
    const pool: array<string>
    const cap: int
    var productStep: nat
    var consumStep: nat
    var blank: int
    var data: int

    // where the two threads stand inside PutData and GetData
    var prod: Producer
    var cons: Consumer

    ghost var puts: seq<string>
    ghost var gets: seq<string>

    ghost function View(): State
      reads this, pool
    {
      State(pool[..], productStep, consumStep, blank, data, prod, cons, puts, gets)
    }

    ghost predicate Valid()
      reads this, pool
    {
      cap == pool.Length && Inv(View())
    }

    constructor (capacity: nat)
      requires capacity > 0
      ensures Valid() && fresh(pool) && pool.Length == capacity && View() == Init(pool[..])
    {
      pool := new string[capacity](_ => "");
      cap := capacity;
      productStep, consumStep, blank, data := 0, 0, capacity, 0;
      prod, cons := Producer.Out, Consumer.Out;
      puts, gets := [], [];
      new;
      InitInv(pool[..]);
    }

    // ----- PutData, by the producer -----

    method WaitBlank(inmsg: string)
      requires Valid() && Enabled(View(), PutWait(inmsg))
      modifies this`blank, this`prod
      ensures Valid() && View() == Apply(old(View()), PutWait(inmsg))
    {
      blank := blank - 1;
      prod := Producer.Entered(inmsg);
      StepKeeps(old(View()), PutWait(inmsg));
    }

    method Store()
      requires Valid() && prod.Entered?
      modifies this`prod, this`puts, pool
      ensures old(Enabled(View(), PutStore)) && Valid() && View() == Apply(old(View()), PutStore)
    {
      pool[productStep] := prod.v;
      puts := puts + [prod.v];
      prod := Stored;
      StepKeeps(old(View()), PutStore);
    }

    method AdvanceProduct()
      requires Valid() && prod.Stored?
      modifies this`productStep, this`prod
      ensures Valid() && View() == Apply(old(View()), PutAdvance)
    {
      productStep := productStep + 1;
      WrapIsMod(productStep, cap);
      productStep := productStep % cap;
      prod := Producer.Advanced;
      StepKeeps(old(View()), PutAdvance);
    }

    method PostData()
      requires Valid() && prod.Advanced?
      modifies this`data, this`prod
      ensures Valid() && View() == Apply(old(View()), PutPost)
    {
      data := data + 1;
      prod := Producer.Out;
      StepKeeps(old(View()), PutPost);
    }

    // ----- GetData, by the consumer -----

    method WaitData()
      requires Valid() && Enabled(View(), GetWait)
      modifies this`data, this`cons
      ensures Valid() && View() == Apply(old(View()), GetWait)
    {
      data := data - 1;
      cons := Consumer.Entered;
      StepKeeps(old(View()), GetWait);
    }

    /** The value fetched is the head of the queue, the oldest value stored and not fetched. */
    method Fetch() returns (outmsg: string)
      requires Valid() && cons.Entered?
      modifies this`cons, this`gets
      ensures old(Enabled(View(), GetFetch)) && Valid() && View() == Apply(old(View()), GetFetch)
      ensures old(Fifo(View())) == [outmsg] + Fifo(View())
    {
      outmsg := pool[consumStep];
      gets := gets + [outmsg];
      cons := Fetched;
      RefinesFifo(old(View()), GetFetch);
    }

    method AdvanceConsum()
      requires Valid() && cons.Fetched?
      modifies this`consumStep, this`cons
      ensures Valid() && View() == Apply(old(View()), GetAdvance)
    {
      consumStep := consumStep + 1;
      WrapIsMod(consumStep, cap);
      consumStep := consumStep % cap;
      cons := Consumer.Advanced;
      StepKeeps(old(View()), GetAdvance);
    }

    method PostBlank()
      requires Valid() && cons.Advanced?
      modifies this`blank, this`cons
      ensures Valid() && View() == Apply(old(View()), GetPost)
    {
      blank := blank + 1;
      cons := Consumer.Out;
      StepKeeps(old(View()), GetPost);
    }

    // ----- whole calls and whole runs -----

    /** PutData with nobody in between, when it need not wait: the value goes to the tail of the queue. */
    method PutData(inmsg: string)
      requires Valid() && prod.Out? && blank > 0
      modifies this, pool
      ensures Valid() && Fifo(View()) == old(Fifo(View())) + [inmsg]
      ensures prod.Out? && cons == old(cons) && blank == old(blank) - 1 && data == old(data) + 1 && gets == old(gets)
    {
      ghost var q := Fifo(View());
      RefinesFifo(View(), PutWait(inmsg));
      WaitBlank(inmsg);
      RefinesFifo(View(), PutStore);
      Store();
      RefinesFifo(View(), PutAdvance);
      AdvanceProduct();
      RefinesFifo(View(), PutPost);
      PostData();
    }

    /** GetData with nobody in between, when it need not wait: the value is the head of the queue. */
    method GetData() returns (outmsg: string)
      requires Valid() && cons.Out? && data > 0
      modifies this, pool
      ensures Valid() && old(Fifo(View())) == [outmsg] + Fifo(View())
      ensures cons.Out? && prod == old(prod) && blank == old(blank) + 1 && data == old(data) - 1 && puts == old(puts)
    {
      RefinesFifo(View(), GetWait);
      WaitData();
      outmsg := Fetch();
      RefinesFifo(View(), GetAdvance);
      AdvanceConsum();
      RefinesFifo(View(), GetPost);
      PostBlank();
    }

    /** Any event, carried out on the record. */
    method Step(e: Event)
      requires Valid() && Enabled(View(), e)
      modifies this, pool
      ensures Valid() && View() == Apply(old(View()), e)
    {
      match e
      case PutWait(v) => WaitBlank(v);
      case PutStore => Store();
      case PutAdvance => AdvanceProduct();
      case PutPost => PostData();
      case GetWait => WaitData();
      case GetFetch => var _ := Fetch();
      case GetAdvance => AdvanceConsum();
      case GetPost => PostBlank();
    }

    /** Every interleaving of the two threads. */
    method Run(es: seq<Event>)
      requires Valid() && IsRun(View(), es)
      modifies this, pool
      ensures Valid() && View() == After(old(View()), es)
    {
      var i := 0;
      assert es[0..] == es;
      while i < |es|
        invariant 0 <= i <= |es| && Valid()
        invariant IsRun(View(), es[i..]) && After(View(), es[i..]) == After(old(View()), es)
      {
        assert es[i..][1..] == es[i + 1..];
        Step(es[i]);
        i := i + 1;
      }
    }
  }
}
