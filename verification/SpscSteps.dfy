/** The ring buffer under concurrency: producer and consumer interleaved at every atomic load, atomic
    store and slot access. An item is copied word by word, so a torn read would be visible. */
module SpscSteps {
  import Fifo
  import opened SpscQueue

  /** Where the producer is inside push. */
  datatype Producer<W> =
    | Resting
    | LoadedHead(item: seq<W>, head: nat)
    | Writing(item: seq<W>, head: nat, written: nat)
    | Refusing

  /** Where the consumer is inside pop. */
  datatype Consumer<W> =
    | Waiting
    | LoadedTail(tail: nat)
    | Copying(tail: nat, copied: seq<W>)

  /** Shared memory, both program counters with their locals, and a history: what push was called with, in
      the order of the calls, and what became of it. */
  datatype State<W> = State(
    capacity: nat, width: nat,
    buffer: seq<seq<W>>, head: nat, tail: nat, dropped: nat,
    producer: Producer<W>, consumer: Consumer<W>,
    offered: seq<seq<W>>, pushed: seq<seq<W>>, refused: seq<seq<W>>, popped: seq<seq<W>>)

  /** What the scheduler may choose next: let a side start a call, or take its next step. */
  datatype Action<W> = CallPush(item: seq<W>) | ProducerStep | CallPop | ConsumerStep

  function Init<W>(capacity: nat, blank: seq<W>): State<W> {
    State(capacity, |blank|, seq(capacity, _ => blank), 0, 0, 0, Resting, Waiting, [], [], [], [])
  }

  /** The item of a push that is neither in the queue nor refused yet. */
  function Held<W>(p: Producer<W>): (items: seq<seq<W>>)
    ensures |items| <= 1
  {
    if p.LoadedHead? || p.Writing? then [p.item] else []
  }

  predicate WellFormed<W>(s: State<W>) {
    && s.capacity == |s.buffer| >= 2
    && s.head < s.capacity && s.tail < s.capacity
    && (forall i :: 0 <= i < s.capacity ==> |s.buffer[i]| == s.width)
    && (s.producer.LoadedHead? ==> |s.producer.item| == s.width && s.producer.head < s.capacity)
    && (s.producer.Writing? ==> |s.producer.item| == s.width && s.producer.head < s.capacity
                                && s.producer.written <= s.width)
    && |Held(s.producer)| <= |s.offered|
    && (s.consumer.LoadedTail? ==> s.consumer.tail < s.capacity)
    && (s.consumer.Copying? ==> s.consumer.tail < s.capacity && |s.consumer.copied| <= s.width)
  }

  function NextProducer<W>(s: State<W>): (t: State<W>)
    requires WellFormed(s)
    ensures WellFormed(t)
  {
    match s.producer
    case Resting => s
    case LoadedHead(item, head) =>
      if Increment(head, s.capacity) == s.tail
      then s.(producer := Refusing, refused := s.refused + [item])
      else s.(producer := Writing(item, head, 0))
    case Writing(item, head, written) =>
      if written < s.width then
        var slot := s.buffer[head][written := item[written]];
        s.(buffer := s.buffer[head := slot], producer := Writing(item, head, written + 1))
      else
        IncrementWraps(head, s.capacity);
        s.(head := Increment(head, s.capacity), producer := Resting, pushed := s.pushed + [item])
    case Refusing => s.(dropped := s.dropped + 1, producer := Resting)
  }

  function NextConsumer<W>(s: State<W>): (t: State<W>)
    requires WellFormed(s)
    ensures WellFormed(t)
  {
    match s.consumer
    case Waiting => s
    case LoadedTail(tail) =>
      s.(consumer := if tail == s.head then Waiting else Copying(tail, []))
    case Copying(tail, copied) =>
      if |copied| < s.width then s.(consumer := Copying(tail, copied + [s.buffer[tail][|copied|]]))
      else
        IncrementWraps(tail, s.capacity);
        s.(tail := Increment(tail, s.capacity), consumer := Waiting, popped := s.popped + [copied])
  }

  /** One step of one side; an action that does not apply changes nothing. */
  function Next<W>(s: State<W>, a: Action<W>): (t: State<W>)
    requires WellFormed(s)
    ensures WellFormed(t)
  {
    match a
    case CallPush(item) =>
      if s.producer.Resting? && |item| == s.width
      then s.(producer := LoadedHead(item, s.head), offered := s.offered + [item])
      else s
    case ProducerStep => NextProducer(s)
    case CallPop => if s.consumer.Waiting? then s.(consumer := LoadedTail(s.tail)) else s
    case ConsumerStep => NextConsumer(s)
  }

  /** The state after a whole schedule. */
  function Execute<W>(s: State<W>, schedule: seq<Action<W>>): (t: State<W>)
    requires WellFormed(s)
    ensures WellFormed(t)
  {
    if schedule == [] then s else Next(Execute(s, schedule[..|schedule| - 1]), schedule[|schedule| - 1])
  }

  function Queued<W>(s: State<W>): seq<seq<W>>
    requires WellFormed(s)
  {
    Contents(s.buffer, s.head, s.tail)
  }

  /** What push was called with, up to the calls whose fate is decided. */
  function Resolved<W>(s: State<W>): seq<seq<W>>
    requires WellFormed(s)
  {
    s.offered[..|s.offered| - |Held(s.producer)|]
  }

  /** The FIFO a state stands for. */
  function Abstract<W>(s: State<W>): Fifo.Fifo<seq<W>>
    requires WellFormed(s)
  {
    Fifo.Fifo(s.capacity - 1, Queued(s), Resolved(s), s.pushed, s.refused, s.popped)
  }

  /** What holds between any two steps, stale locals included. */
  ghost predicate Invariant<W>(s: State<W>) {
    && WellFormed(s)
    && Fifo.Conserves(Abstract(s))
    && s.offered == Resolved(s) + Held(s.producer)
    && |s.refused| == s.dropped + (if s.producer.Refusing? then 1 else 0)
    && (s.producer.LoadedHead? ==> s.producer.head == s.head)
    && (s.producer.Writing? ==>
          && s.producer.head == s.head
          && Increment(s.head, s.capacity) != s.tail
          && s.buffer[s.head][..s.producer.written] == s.producer.item[..s.producer.written])
    && (s.consumer.LoadedTail? ==> s.consumer.tail == s.tail)
    && (s.consumer.Copying? ==>
          s.consumer.tail == s.tail != s.head && s.consumer.copied <= s.buffer[s.tail])
  }

  /** The operation on the FIFO that takes effect in a step; every other step leaves the FIFO alone. */
  function Effect<W>(s: State<W>, a: Action<W>, q: Fifo.Fifo<seq<W>>): Fifo.Fifo<seq<W>>
    requires WellFormed(s)
  {
    if a.ProducerStep? && s.producer.LoadedHead? && Increment(s.producer.head, s.capacity) == s.tail
    then Fifo.Push(q, s.producer.item)
    else if a.ProducerStep? && s.producer.Writing? && s.producer.written == s.width
    then Fifo.Push(q, s.producer.item)
    else if a.ConsumerStep? && s.consumer.LoadedTail? && s.consumer.tail == s.head then Fifo.Pop(q)
    else if a.ConsumerStep? && s.consumer.Copying? && |s.consumer.copied| == s.width then Fifo.Pop(q)
    else q
  }

  lemma InitInvariant<W>(capacity: nat, blank: seq<W>)
    requires capacity >= 2
    ensures Invariant(Init(capacity, blank))
  {
  }

  /** With no item in hand, everything offered is resolved. */
  lemma WhatIsOffered<W>(s: State<W>)
    requires WellFormed(s)
    ensures s.offered[..|s.offered|] == s.offered && s.offered + [] == s.offered
    ensures Held(s.producer) == [] ==> Resolved(s) == s.offered
  {
  }

  lemma TailLoadRefines<W>(s: State<W>)
    requires Invariant(s) && s.producer.LoadedHead?
    ensures Invariant(NextProducer(s))
    ensures Abstract(NextProducer(s)) == Effect(s, ProducerStep, Abstract(s))
  {
    hide Fifo.Conserves, Contents;
    FullMeansOneSlotLeft(s.head, s.tail, s.capacity);
    Fifo.PushConserves(Abstract(s), s.producer.item);
    WhatIsOffered(s);
    hide Increment, Used;
  }

  lemma WordWriteRefines<W>(s: State<W>)
    requires Invariant(s) && s.producer.Writing? && s.producer.written < s.width
    ensures Invariant(NextProducer(s))
    ensures Abstract(NextProducer(s)) == Abstract(s)
  {
    var Writing(item, head, written) := s.producer;
    var slot := s.buffer[head][written := item[written]];
    WriteAtHeadIsInvisible(s.buffer, head, s.tail, slot);
    assert slot[..written + 1] == s.buffer[head][..written] + [item[written]];
    hide Contents, Increment, Used;
  }

  lemma HeadStorePushes<W>(s: State<W>)
    requires Invariant(s) && s.producer.Writing? && s.producer.written == s.width
    ensures Abstract(NextProducer(s)) == Fifo.Push(Abstract(s), s.producer.item)
    ensures |Queued(NextProducer(s))| == |Queued(s)| + 1
  {
    var item := s.producer.item;
    assert s.buffer[s.head][..s.width] == s.buffer[s.head] && item[..s.width] == item;
    FullMeansOneSlotLeft(s.head, s.tail, s.capacity);
    AdvanceHead(s.buffer, s.head, s.tail);
    WhatIsOffered(s);
    hide Contents, Increment, Used, Fifo.Conserves;
  }

  lemma HeadStoreRefines<W>(s: State<W>)
    requires Invariant(s) && s.producer.Writing? && s.producer.written == s.width
    ensures Invariant(NextProducer(s))
    ensures Abstract(NextProducer(s)) == Fifo.Push(Abstract(s), s.producer.item)
  {
    hide Contents, Fifo.Conserves, Fifo.Push, Increment, Used;
    HeadStorePushes(s);
    Fifo.PushConserves(Abstract(s), s.producer.item);
    FullMeansOneSlotLeft(s.head, s.tail, s.capacity);
    FullMeansOneSlotLeft(NextProducer(s).head, s.tail, s.capacity);
    WhatIsOffered(NextProducer(s));
    WhatIsOffered(s);
    hide Abstract, Resolved;
  }

  lemma WordReadRefines<W>(s: State<W>)
    requires Invariant(s) && s.consumer.Copying? && |s.consumer.copied| < s.width
    ensures Invariant(NextConsumer(s))
    ensures Abstract(NextConsumer(s)) == Abstract(s)
  {
    hide Contents, Increment, Used;
  }

  lemma TailStoreRefines<W>(s: State<W>)
    requires Invariant(s) && s.consumer.Copying? && |s.consumer.copied| == s.width
    ensures Invariant(NextConsumer(s))
    ensures Abstract(NextConsumer(s)) == Fifo.Pop(Abstract(s))
  {
    TailStorePops(s);
    Fifo.PopConserves(Abstract(s));
    FullMeansOneSlotLeft(s.head, s.tail, s.capacity);
    FullMeansOneSlotLeft(s.head, NextConsumer(s).tail, s.capacity);
    hide Contents, Fifo.Conserves, Fifo.Pop, Increment, Abstract;
  }

  lemma TailStorePops<W>(s: State<W>)
    requires Invariant(s) && s.consumer.Copying? && |s.consumer.copied| == s.width
    ensures Abstract(NextConsumer(s)) == Fifo.Pop(Abstract(s))
    ensures |Queued(NextConsumer(s))| == |Queued(s)| - 1
  {
    AdvanceTail(s.buffer, s.head, s.tail);
    hide Contents, Fifo.Conserves, Increment, Used;
    assert s.consumer.copied == s.buffer[s.tail];
    assert Queued(s)[1..] == Queued(NextConsumer(s));
  }

  lemma ProducerRefines<W>(s: State<W>)
    requires Invariant(s)
    ensures Invariant(NextProducer(s))
    ensures Abstract(NextProducer(s)) == Effect(s, ProducerStep, Abstract(s))
  {
    if s.producer.LoadedHead? {
      TailLoadRefines(s);
    } else if s.producer.Writing? && s.producer.written < s.width {
      WordWriteRefines(s);
    } else if s.producer.Writing? {
      HeadStoreRefines(s);
    }
    hide Contents, Increment, Used;
  }

  lemma ConsumerRefines<W>(s: State<W>)
    requires Invariant(s)
    ensures Invariant(NextConsumer(s))
    ensures Abstract(NextConsumer(s)) == Effect(s, ConsumerStep, Abstract(s))
  {
    if s.consumer.Copying? && |s.consumer.copied| == s.width {
      TailStoreRefines(s);
    } else if s.consumer.Copying? {
      WordReadRefines(s);
    } else {
      FullMeansOneSlotLeft(s.head, s.tail, s.capacity);
    }
    hide Contents, Increment, Used;
  }

  /** Linearizability, one step: every step keeps the invariant and is either invisible or exactly the
      one FIFO operation it stands for, with that operation's result. */
  lemma StepRefines<W>(s: State<W>, a: Action<W>)
    requires Invariant(s)
    ensures Invariant(Next(s, a))
    ensures Abstract(Next(s, a)) == Effect(s, a, Abstract(s))
  {
    hide Contents, Increment, Used, Fifo.Conserves, NextProducer, NextConsumer;
    match a
    case CallPush(item) =>
      WhatIsOffered(s);
      assert (s.offered + [item])[..|s.offered|] == s.offered;
    case ProducerStep => ProducerRefines(s);
    case CallPop =>
    case ConsumerStep => ConsumerRefines(s);
  }

  lemma {:induction false} ReachableInvariant<W>(capacity: nat, blank: seq<W>, schedule: seq<Action<W>>)
    requires capacity >= 2
    ensures Invariant(Execute(Init(capacity, blank), schedule))
  {
    if schedule == [] {
      InitInvariant(capacity, blank);
    } else {
      var n := |schedule| - 1;
      ReachableInvariant(capacity, blank, schedule[..n]);
      StepRefines(Execute(Init(capacity, blank), schedule[..n]), schedule[n]);
    }
  }

  /** Linearizability over every schedule and every capacity: popped items followed by the queued ones
      are the successfully pushed items in order, at most capacity - 1 are queued, and dropped counts
      the failed pushes up to the one increment still to come. Every item push was ever called with is in
      exactly one place, in call order: pushed, refused, or the one in the producer's hand. */
  lemma EveryScheduleIsFifo<W>(capacity: nat, blank: seq<W>, schedule: seq<Action<W>>)
    requires capacity >= 2
    ensures var s := Execute(Init(capacity, blank), schedule);
      && s.popped + Queued(s) == s.pushed
      && |Queued(s)| <= capacity - 1
      && s.offered == Resolved(s) + Held(s.producer)
      && Fifo.Interleaves(Resolved(s), s.pushed, s.refused)
      && |s.refused| == s.dropped + (if s.producer.Refusing? then 1 else 0)
  {
    ReachableInvariant(capacity, blank, schedule);
    CapacityIsFixed(Init(capacity, blank), schedule);
    hide Contents, Execute;
  }

  /** Slot exclusivity over every schedule: the slot the producer writes is never the one the consumer
      copies, and what the consumer has copied so far is a prefix of the oldest item, whole and as pushed. */
  lemma SlotsAreExclusive<W>(capacity: nat, blank: seq<W>, schedule: seq<Action<W>>)
    requires capacity >= 2
    ensures var s := Execute(Init(capacity, blank), schedule);
      && (s.producer.Writing? && s.consumer.Copying? ==> s.producer.head != s.consumer.tail)
      && (s.consumer.Copying? ==>
            |s.popped| < |s.pushed| && s.consumer.copied <= s.pushed[|s.popped|])
  {
    ReachableInvariant(capacity, blank, schedule);
    var s := Execute(Init(capacity, blank), schedule);
    if s.consumer.Copying? {
      AdvanceTail(s.buffer, s.head, s.tail);
      assert Queued(s)[0] == (s.popped + Queued(s))[|s.popped|];
    }
  }

  /** A push gives up exactly when the queue is full at its load of tail, and a pop exactly when it is
      empty at its load of head; what happens before or after does not matter. */
  lemma FailsExactlyWhenFullOrEmpty<W>(capacity: nat, blank: seq<W>, schedule: seq<Action<W>>)
    requires capacity >= 2
    ensures var s := Execute(Init(capacity, blank), schedule);
      && (s.producer.LoadedHead? ==> (Next(s, ProducerStep).producer.Refusing? <==> |Queued(s)| == capacity - 1))
      && (s.consumer.LoadedTail? ==> (Next(s, ConsumerStep).consumer.Waiting? <==> Queued(s) == []))
  {
    ReachableInvariant(capacity, blank, schedule);
    var s := Execute(Init(capacity, blank), schedule);
    CapacityIsFixed(Init(capacity, blank), schedule);
    FullMeansOneSlotLeft(s.head, s.tail, s.capacity);
  }

  lemma NextKeepsSize<W>(s: State<W>, a: Action<W>)
    requires WellFormed(s)
    ensures Next(s, a).capacity == s.capacity && Next(s, a).width == s.width
  {
    hide Increment;
  }

  lemma {:induction false} CapacityIsFixed<W>(s: State<W>, schedule: seq<Action<W>>)
    requires WellFormed(s)
    ensures Execute(s, schedule).capacity == s.capacity && Execute(s, schedule).width == s.width
  {
    hide Contents, Increment, WellFormed;
    if schedule != [] {
      CapacityIsFixed(s, schedule[..|schedule| - 1]);
      NextKeepsSize(Execute(s, schedule[..|schedule| - 1]), schedule[|schedule| - 1]);
      hide Next;
    }
  }

  /** How many of its own steps the producer (consumer) needs to finish its call. */
  function ProducerLeft<W>(s: State<W>): nat
    requires WellFormed(s)
  {
    match s.producer
    case Resting => 0
    case LoadedHead(_, _) => s.width + 2
    case Writing(_, _, written) => s.width - written + 1
    case Refusing => 1
  }

  function ConsumerLeft<W>(s: State<W>): nat
    requires WellFormed(s)
  {
    match s.consumer
    case Waiting => 0
    case LoadedTail(_) => s.width + 2
    case Copying(_, copied) => s.width - |copied| + 1
  }

  /** Neither side ever waits for the other: each own step brings a call closer to its end, and no step
      of the other side changes how much is left. */
  lemma WaitFree<W>(s: State<W>)
    requires WellFormed(s)
    ensures !s.producer.Resting? ==> ProducerLeft(Next(s, ProducerStep)) < ProducerLeft(s)
    ensures !s.consumer.Waiting? ==> ConsumerLeft(Next(s, ConsumerStep)) < ConsumerLeft(s)
    ensures ProducerLeft(Next(s, ConsumerStep)) == ProducerLeft(Next(s, CallPop)) == ProducerLeft(s)
    ensures ConsumerLeft(Next(s, ProducerStep)) == ConsumerLeft(s)
    ensures forall item :: ConsumerLeft(Next(s, CallPush(item))) == ConsumerLeft(s)
  {
  }

  /** One side running alone for n actions. */
  function Solo<W>(s: State<W>, a: Action<W>, n: nat): (t: State<W>)
    requires WellFormed(s)
    ensures WellFormed(t)
    decreases n
  {
    if n == 0 then s else Solo(Next(s, a), a, n - 1)
  }

  lemma SoloOneMore<W>(s: State<W>, a: Action<W>, n: nat)
    requires WellFormed(s)
    ensures Solo(s, a, n + 1) == Solo(Next(s, a), a, n)
    ensures Solo(s, a, 0) == s
  {
  }

  /** The queue as it will be when the producer's (consumer's) current call is over, if the other side rests. */
  function AfterPush<W>(s: State<W>): Fifo.Fifo<seq<W>>
    requires WellFormed(s)
  {
    if s.producer.LoadedHead? || s.producer.Writing? then Fifo.Push(Abstract(s), s.producer.item) else Abstract(s)
  }

  function AfterPop<W>(s: State<W>): Fifo.Fifo<seq<W>>
    requires WellFormed(s)
  {
    if s.consumer.Waiting? then Abstract(s) else Fifo.Pop(Abstract(s))
  }

  lemma ProducerGoesOn<W>(s: State<W>)
    requires Invariant(s) && !s.producer.Resting?
    ensures var u := Next(s, ProducerStep);
      && Invariant(u) && AfterPush(u) == AfterPush(s) && u.consumer == s.consumer
      && ProducerLeft(u) < ProducerLeft(s)
  {
    StepRefines(s, ProducerStep);
    WaitFree(s);
    hide Invariant, Abstract, Increment, Fifo.Push, ProducerLeft, ConsumerLeft;
  }

  lemma ConsumerGoesOn<W>(s: State<W>)
    requires Invariant(s) && !s.consumer.Waiting?
    ensures var u := Next(s, ConsumerStep);
      && Invariant(u) && AfterPop(u) == AfterPop(s) && u.producer == s.producer
      && ConsumerLeft(u) < ConsumerLeft(s)
  {
    StepRefines(s, ConsumerStep);
    WaitFree(s);
    hide Invariant, Abstract, Increment, Fifo.Pop, ProducerLeft, ConsumerLeft;
  }

  /** From s to t the producer has finished its call alone. */
  ghost predicate PushFinished<W>(s: State<W>, t: State<W>) {
    && WellFormed(s) && Invariant(t)
    && t.producer.Resting? && t.consumer == s.consumer && AfterPush(t) == AfterPush(s)
  }

  lemma PushFinishesLater<W>(s: State<W>, t: State<W>)
    requires Invariant(s) && !s.producer.Resting? && PushFinished(Next(s, ProducerStep), t)
    ensures PushFinished(s, t)
  {
    ProducerGoesOn(s);
    hide Next, Invariant, AfterPush;
  }

  lemma {:induction false} PushFinishes<W>(s: State<W>) returns (n: nat)
    requires Invariant(s)
    ensures n <= ProducerLeft(s)
    ensures PushFinished(s, Solo(s, ProducerStep, n))
    decreases ProducerLeft(s)
  {
    hide Next, AfterPush, ProducerLeft, Abstract, Held, PushFinished;
    if s.producer.Resting? {
      n := 0;
      PushIsFinished(s);
    } else {
      ProducerGoesOn(s);
      n := PushFinishes(Next(s, ProducerStep));
      PushFinishesLater(s, Solo(Next(s, ProducerStep), ProducerStep, n));
      SoloOneMore(s, ProducerStep, n);
      n := n + 1;
    }
  }

  lemma PushIsFinished<W>(s: State<W>)
    requires Invariant(s) && s.producer.Resting?
    ensures PushFinished(s, s)
  {
  }

  /** From s to t the consumer has finished its call alone. */
  ghost predicate PopFinished<W>(s: State<W>, t: State<W>) {
    && WellFormed(s) && Invariant(t)
    && t.consumer.Waiting? && t.producer == s.producer && AfterPop(t) == AfterPop(s)
  }

  lemma PopFinishesLater<W>(s: State<W>, t: State<W>)
    requires Invariant(s) && !s.consumer.Waiting? && PopFinished(Next(s, ConsumerStep), t)
    ensures PopFinished(s, t)
  {
    ConsumerGoesOn(s);
    hide Next, Invariant, AfterPop;
  }

  lemma {:induction false} PopFinishes<W>(s: State<W>) returns (n: nat)
    requires Invariant(s)
    ensures n <= ConsumerLeft(s)
    ensures PopFinished(s, Solo(s, ConsumerStep, n))
    decreases ConsumerLeft(s)
  {
    hide Next, AfterPop, ConsumerLeft, Abstract, Held, PopFinished;
    if s.consumer.Waiting? {
      n := 0;
      PopIsFinished(s);
    } else {
      ConsumerGoesOn(s);
      n := PopFinishes(Next(s, ConsumerStep));
      PopFinishesLater(s, Solo(Next(s, ConsumerStep), ConsumerStep, n));
      SoloOneMore(s, ConsumerStep, n);
      n := n + 1;
    }
  }

  lemma PopIsFinished<W>(s: State<W>)
    requires Invariant(s) && s.consumer.Waiting?
    ensures PopFinished(s, s)
  {
  }

  /** Every push that is called completes: the producer needs at most width + 2 steps of its own to have pushed
      exactly that item, or, on a full queue, to have refused it and counted the drop. */
  lemma PushCompletes<W>(s: State<W>, item: seq<W>) returns (n: nat)
    requires Invariant(s) && s.producer.Resting? && |item| == s.width
    ensures n <= s.width + 2
    ensures var t := Solo(Next(s, CallPush(item)), ProducerStep, n);
      && t.producer.Resting? && t.consumer == s.consumer
      && Abstract(t) == Fifo.Push(Abstract(s), item) && t.offered == s.offered + [item]
      && t.dropped == s.dropped + if |Queued(s)| < s.capacity - 1 then 0 else 1
  {
    var called := Next(s, CallPush(item));
    StepRefines(s, CallPush(item));
    n := PushFinishes(called);
    hide Fifo.Conserves, Contents;
    var t := Solo(called, ProducerStep, n);
    WhatIsOffered(s);
    WhatIsOffered(t);
  }

  /** Every pop that is called completes: within width + 2 steps of its own the consumer has taken exactly the
      oldest item, or nothing from an empty queue. */
  lemma PopCompletes<W>(s: State<W>) returns (n: nat)
    requires Invariant(s) && s.consumer.Waiting?
    ensures n <= s.width + 2
    ensures var t := Solo(Next(s, CallPop), ConsumerStep, n);
      && t.consumer.Waiting? && t.producer == s.producer
      && Abstract(t) == Fifo.Pop(Abstract(s))
      && t.popped == s.popped + if Queued(s) == [] then [] else [Queued(s)[0]]
  {
    StepRefines(s, CallPop);
    n := PopFinishes(Next(s, CallPop));
    hide Fifo.Conserves, Contents;
    assert s.popped + [] == s.popped;
  }
}
