/** FixedSizeLockFreeQueue: one producer and one consumer share a ring and two 32-bit counters
    that wrap around. Each call is cut into the steps another thread can come between: the
    check, the access to the slot, and the atomic increment. Steps are sequentially consistent. */
module LockFreeQueue {
  import opened Arithmetic
  import opened CText
  import opened Sequences

  // The counters are uint32 and size_t is 32 bits wide.
  const WRAP: nat := 0x1_0000_0000

  datatype Producer<T> = Resting | Admitted(value: T) | Stored(value: T)
  datatype Consumer<T> = Waiting | Permitted | Holding(value: T)

  /** The shared memory, where the two threads are, and the history of completed calls. */
  datatype Queue<T> = Queue(capacity: nat, data: seq<T>, pushedCount: nat, poppedCount: nat,
                            producer: Producer<T>, consumer: Consumer<T>,
                            pushed: seq<T>, popped: seq<T>)
  {
    predicate IsFull() { pushedCount == (poppedCount + capacity) % WRAP }

    predicate IsEmpty() { pushedCount == poppedCount }

    /** Size(): a difference of unsigned counters. */
    function Size(): nat { (pushedCount - poppedCount) % WRAP }

    /** The pushes that are finished or under way. */
    function Started(): nat { |pushed| + if producer.Resting? then 0 else 1 }

    /** What the consumer got is what the producer put in, in order, up to now. */
    ghost predicate Fifo() { popped <= pushed }
  }

  function Init<T>(data: seq<T>): Queue<T> {
    Queue(|data|, data, 0, 0, Resting, Waiting, [], [])
  }

  datatype Step<T> =
    | PushCheck(value: T)  // capacity_ == 0 and IsFull()
    | PushStore            // data_[pushed_count_ % capacity_] = value
    | PushCount            // AtomicIncrement(&pushed_count_)
    | PopCheck             // capacity_ == 0 and IsEmpty()
    | PopRead              // *value_out = data_[popped_count_ % capacity_]
    | PopCount             // AtomicIncrement(&popped_count_)
    | PeekReturn           // PeekFront called by itself

  /** One step; a step its thread is not ready for changes nothing. */
  function Next<T>(q: Queue<T>, step: Step<T>): Queue<T> {
    match step
    case PushCheck(v) =>
      if q.producer.Resting? && q.capacity != 0 && !q.IsFull() then q.(producer := Admitted(v)) else q
    case PushStore =>
      if q.producer.Admitted? && q.capacity != 0 && q.pushedCount % q.capacity < |q.data| then
        q.(data := q.data[q.pushedCount % q.capacity := q.producer.value], producer := Stored(q.producer.value))
      else q
    case PushCount =>
      if q.producer.Stored? then
        q.(pushedCount := (q.pushedCount + 1) % WRAP, producer := Resting, pushed := q.pushed + [q.producer.value])
      else q
    case PopCheck =>
      if q.consumer.Waiting? && q.capacity != 0 && !q.IsEmpty() then q.(consumer := Permitted) else q
    case PopRead =>
      if q.consumer.Permitted? && q.capacity != 0 && q.poppedCount % q.capacity < |q.data| then
        q.(consumer := Holding(q.data[q.poppedCount % q.capacity]))
      else q
    case PopCount =>
      if q.consumer.Holding? then
        q.(poppedCount := (q.poppedCount + 1) % WRAP, consumer := Waiting, popped := q.popped + [q.consumer.value])
      else q
    case PeekReturn =>
      if q.consumer.Holding? then q.(consumer := Waiting) else q
  }

  function Run<T>(q: Queue<T>, steps: seq<Step<T>>): Queue<T>
    decreases |steps|
  {
    if steps == [] then q else Run(Next(q, steps[0]), steps[1..])
  }

  // ------------------------------------------------------------ slots

  /** The ring slot of the k-th value ever pushed, counted with a wrapping counter. */
  function Slot(k: nat, capacity: nat): nat
    requires capacity > 0
  {
    k % WRAP % capacity
  }

  /** The slots stay in step with the values: the capacity divides 2^32, or no counter has wrapped yet. */
  predicate InStep<T>(q: Queue<T>) {
    q.capacity > 0 ==> WRAP % q.capacity == 0 || q.Started() <= WRAP
  }

  lemma SlotIsRemainder<T>(q: Queue<T>, k: nat)
    requires InStep(q) && q.capacity > 0 && k < q.Started()
    ensures Slot(k, q.capacity) == k % q.capacity
  {
    if WRAP % q.capacity == 0 { ModOfMultiple(k, WRAP, q.capacity); }
  }

  lemma SlotsDiffer<T>(q: Queue<T>, j: nat, k: nat)
    requires InStep(q) && q.capacity > 0 && j < k < j + q.capacity && k < q.Started()
    ensures Slot(j, q.capacity) != Slot(k, q.capacity)
  {
    SlotIsRemainder(q, j);
    SlotIsRemainder(q, k);
    DistinctRemainders(j, k, q.capacity);
  }

  // ------------------------------------------------------------ what every step keeps

  ghost predicate Inv<T>(q: Queue<T>) {
    var P, Q := |q.pushed|, |q.popped|;
    && |q.data| == q.capacity < WRAP
    && q.pushedCount == P % WRAP && q.poppedCount == Q % WRAP
    && Q <= P <= Q + q.capacity
    && q.popped == q.pushed[..Q]
    && (!q.producer.Resting? ==> P < Q + q.capacity)
    && (!q.consumer.Waiting? ==> Q < P)
    && (q.consumer.Holding? ==> q.consumer.value == q.pushed[Q])
    && Unread(q)
  }

  /** Every value pushed and not yet popped is still in its slot, and so is one being pushed. */
  ghost predicate Unread<T>(q: Queue<T>) {
    q.capacity > 0 && |q.data| == q.capacity ==>
      && (forall k :: |q.popped| <= k < |q.pushed| ==> q.data[Slot(k, q.capacity)] == q.pushed[k])
      && (q.producer.Stored? ==> q.data[Slot(|q.pushed|, q.capacity)] == q.producer.value)
  }

  lemma CountsCompare(P: nat, Q: nat, c: nat)
    requires Q <= P <= Q + c && c < WRAP
    ensures (P - Q) % WRAP == P - Q && (P % WRAP - Q % WRAP) % WRAP == P - Q
    ensures P % WRAP == Q % WRAP <==> P == Q
    ensures P % WRAP == (Q % WRAP + c) % WRAP <==> P == Q + c
  {}

  /** Size() is the number of values in the queue, and never exceeds the capacity. */
  lemma SizeIsExact<T>(q: Queue<T>)
    requires Inv(q)
    ensures q.Size() == |q.pushed| - |q.popped| <= q.capacity
    ensures q.IsFull() <==> |q.pushed| == |q.popped| + q.capacity
    ensures q.IsEmpty() <==> |q.pushed| == |q.popped|
  {
    CountsCompare(|q.pushed|, |q.popped|, q.capacity);
  }

  /** Storing into the next slot overwrites nothing unread. */
  lemma StoreKeepsUnread<T>(q: Queue<T>)
    requires Inv(q) && InStep(q) && q.producer.Admitted?
    ensures Inv(Next(q, PushStore)) && Next(q, PushStore).producer.Stored?
  {
    var P := |q.pushed|;
    var next := Next(q, PushStore);
    forall k | |q.popped| <= k < P
      ensures Slot(k, q.capacity) != Slot(P, q.capacity)
    {
      SlotsDiffer(q, k, P);
    }
  }

  lemma CountGrows(n: nat)
    ensures (n % WRAP + 1) % WRAP == (n + 1) % WRAP
  {}

  lemma PushCountKeepsInv<T>(q: Queue<T>)
    requires Inv(q) && q.producer.Stored?
    ensures Inv(Next(q, PushCount))
  {
    hide Slot;
    CountGrows(|q.pushed|);
    assert (q.pushed + [q.producer.value])[..|q.popped|] == q.pushed[..|q.popped|];
  }

  lemma PopCountKeepsInv<T>(q: Queue<T>)
    requires Inv(q) && q.consumer.Holding?
    ensures Inv(Next(q, PopCount))
  {
    hide Slot;
    CountGrows(|q.popped|);
    assert q.pushed[..|q.popped|] + [q.pushed[|q.popped|]] == q.pushed[..|q.popped| + 1];
  }

  /** The consumer reads the oldest unread value. */
  lemma PopReadKeepsInv<T>(q: Queue<T>)
    requires Inv(q) && q.consumer.Permitted?
    ensures Inv(Next(q, PopRead)) && Next(q, PopRead).consumer == Holding(q.pushed[|q.popped|])
  {}

  lemma StepKeepsInv<T>(q: Queue<T>, step: Step<T>)
    requires Inv(q) && InStep(Next(q, step))
    ensures Inv(Next(q, step)) && Next(q, step).capacity == q.capacity && q.Started() <= Next(q, step).Started()
  {
    SizeIsExact(q);
    hide Slot;
    match step
    case PushCheck(_) =>
    case PushStore => if q.producer.Admitted? { StoreKeepsUnread(q); }
    case PushCount => if q.producer.Stored? { PushCountKeepsInv(q); }
    case PopCheck =>
    case PopRead => if q.consumer.Permitted? { PopReadKeepsInv(q); }
    case PopCount => if q.consumer.Holding? { PopCountKeepsInv(q); }
    case PeekReturn =>
  }

  // ------------------------------------------------------------ whole runs

  lemma StartedGrows<T>(q: Queue<T>, steps: seq<Step<T>>)
    ensures q.Started() <= Run(q, steps).Started() && Run(q, steps).capacity == q.capacity
    decreases |steps|
  {
    if steps != [] { StartedGrows(Next(q, steps[0]), steps[1..]); }
  }

  lemma {:induction false} RunKeepsInv<T>(q: Queue<T>, steps: seq<Step<T>>)
    requires Inv(q) && InStep(Run(q, steps))
    ensures Inv(Run(q, steps))
    decreases |steps|
  {
    if steps == [] {
    } else {
      StartedGrows(Next(q, steps[0]), steps[1..]);
      StepKeepsInv(q, steps[0]);
      RunKeepsInv(Next(q, steps[0]), steps[1..]);
    }
  }

  /** Every interleaving of the two threads' steps is a FIFO whose size stays within the
      capacity, as long as the slots stay in step with the counters. */
  lemma EveryRunIsFifo<T>(data: seq<T>, steps: seq<Step<T>>)
    requires |data| < WRAP && InStep(Run(Init(data), steps))
    ensures var q := Run(Init(data), steps);
            q.Fifo() && q.Size() == |q.pushed| - |q.popped| <= |data|
  {
    RunKeepsInv(Init(data), steps);
    SizeIsExact(Run(Init(data), steps));
    StartedGrows(Init(data), steps);
  }

  // ------------------------------------------------------------ when the capacity does not divide 2^32

  function PushSteps<T>(v: T): seq<Step<T>> { [PushCheck(v), PushStore, PushCount] }

  function PopSteps<T>(): seq<Step<T>> { [PopCheck, PopRead, PopCount] }

  lemma RunThree<T>(q: Queue<T>, a: Step<T>, b: Step<T>, c: Step<T>)
    ensures Run(q, [a, b, c]) == Next(Next(Next(q, a), b), c)
  {
    assert [a, b, c][1..] == [b, c] && [b, c][1..] == [c] && [c][1..] == [];
    assert Run(q, [a, b, c]) == Run(Next(q, a), [b, c]) == Run(Next(Next(q, a), b), [c]);
  }

  /** A peek that nothing comes between leaves the queue as it was. */
  lemma PeekChangesNothing<T>(q: Queue<T>)
    requires q.consumer.Waiting? && q.capacity == |q.data|
    ensures Run(q, [PopCheck, PopRead, PeekReturn]) == q
  {
    RunThree(q, PopCheck, PopRead, PeekReturn);
  }

  lemma {:induction false} RunAppend<T>(q: Queue<T>, a: seq<Step<T>>, b: seq<Step<T>>)
    ensures Run(q, a + b) == Run(Run(q, a), b)
    decreases |a|
  {
    if a == [] {
      assert a + b == b;
    } else {
      RunAppend(Next(q, a[0]), a[1..], b);
      assert (a + b)[1..] == a[1..] + b;
    }
  }

  /** Both threads are at rest; n values v have been popped and j more are waiting. */
  ghost predicate Calm<T>(q: Queue<T>, capacity: nat, v: T, n: nat, j: nat) {
    && Inv(q) && q.capacity == capacity && q.producer.Resting? && q.consumer.Waiting?
    && |q.pushed| == n + j && |q.popped| == n
    && forall k :: 0 <= k < n + j ==> q.pushed[k] == v
  }

  /** Push values v until n of them have been popped and j are waiting. */
  function Schedule<T>(v: T, n: nat, j: nat): seq<Step<T>>
    decreases n + j
  {
    if j > 0 then Schedule(v, n, j - 1) + PushSteps(v)
    else if n > 0 then Schedule(v, n - 1, 0) + PushSteps(v) + PopSteps()
    else []
  }

  lemma PushWhole<T>(q: Queue<T>, capacity: nat, v: T, n: nat, j: nat)
    requires Calm(q, capacity, v, n, j) && j < capacity && n + j < WRAP
    ensures Calm(Run(q, PushSteps(v)), capacity, v, n, j + 1)
  {
    hide Inv;
    SizeIsExact(q);
    RunThree(q, PushCheck(v), PushStore, PushCount);
    var a := Next(q, PushCheck(v));
    StepKeepsInv(q, PushCheck(v));
    StoreKeepsUnread(a);
    PushCountKeepsInv(Next(a, PushStore));
  }

  lemma PopWhole<T>(q: Queue<T>, capacity: nat, v: T, n: nat, j: nat)
    requires Calm(q, capacity, v, n, j) && 0 < j && n + j <= WRAP
    ensures Calm(Run(q, PopSteps()), capacity, v, n + 1, j - 1)
  {
    SizeIsExact(q);
    RunThree(q, PopCheck, PopRead, PopCount);
    var a := Next(q, PopCheck);
    StepKeepsInv(q, PopCheck);
    PopReadKeepsInv(a);
    PopCountKeepsInv(Next(a, PopRead));
  }

  lemma {:induction false} ScheduleIsCalm<T>(data: seq<T>, v: T, n: nat, j: nat)
    requires 0 < |data| < WRAP && j <= |data| && n + j <= WRAP
    ensures Calm(Run(Init(data), Schedule(v, n, j)), |data|, v, n, j)
    decreases n + j
  {
    hide Inv;
    if j > 0 {
      ScheduleIsCalm(data, v, n, j - 1);
      RunAppend(Init(data), Schedule(v, n, j - 1), PushSteps(v));
      PushWhole(Run(Init(data), Schedule(v, n, j - 1)), |data|, v, n, j - 1);
    } else if n > 0 {
      var before := Schedule(v, n - 1, 0);
      ScheduleIsCalm(data, v, n - 1, 0);
      RunAppend(Init(data), before, PushSteps(v));
      RunAppend(Init(data), before + PushSteps(v), PopSteps());
      PushWhole(Run(Init(data), before), |data|, v, n - 1, 0);
      PopWhole(Run(Init(data), before + PushSteps(v)), |data|, v, n - 1, 1);
    } else {
      InitIsCalm(data, v);
    }
  }

  lemma InitIsCalm<T>(data: seq<T>, v: T)
    requires 0 < |data| < WRAP
    ensures Calm(Init(data), |data|, v, 0, 0)
  {}

  lemma WrappedCounts<T>(q: Queue<T>, v: T)
    requires 0 < q.capacity < WRAP && WRAP % q.capacity != 0
    requires Calm(q, q.capacity, v, WRAP - WRAP % q.capacity, WRAP % q.capacity)
    ensures q.pushedCount == 0 && q.poppedCount == WRAP - WRAP % q.capacity > 1
    ensures !q.IsFull() && |q.data| == q.capacity && q.producer.Resting? && q.consumer.Waiting?
  {
    hide Unread;
    var r := WRAP % q.capacity;
    assert 0 < r < q.capacity;
    assert (WRAP - r + q.capacity) % WRAP == q.capacity - r;
  }

  /** The pushed counter has just wrapped to 0 and as many values wait as 2^32 exceeds a
      multiple of the capacity: the next push lands on the oldest of them. */
  lemma WrappedPushOverwrites<T>(q: Queue<T>, v: T, w: T)
    requires 0 < q.capacity < WRAP && WRAP % q.capacity != 0
    requires Calm(q, q.capacity, v, WRAP - WRAP % q.capacity, WRAP % q.capacity)
    ensures var q' := Run(q, PushSteps(w) + PopSteps());
            q'.pushed == q.pushed + [w] && q'.popped == q.popped + [w]
  {
    hide Run, Calm;
    WrappedCounts(q, v);
    SlotOfMultiple(q.capacity);
    RunAppend(q, PushSteps(w), PopSteps());
    RunThree(q, PushCheck(w), PushStore, PushCount);
    var stored := q.(data := q.data[0 := w], pushedCount := 1, pushed := q.pushed + [w]);
    assert 0 % q.capacity == 0;
    assert Next(q, PushCheck(w)) == q.(producer := Admitted(w));
    assert Next(Next(q, PushCheck(w)), PushStore) == q.(producer := Stored(w), data := q.data[0 := w]);
    assert Run(q, PushSteps(w)) == stored;
    RunThree(stored, PopCheck, PopRead, PopCount);
  }

  lemma SlotOfMultiple(capacity: nat)
    requires 0 < capacity < WRAP
    ensures (WRAP - WRAP % capacity) % capacity == 0
    ensures WRAP % capacity < capacity
  {
    assert WRAP - WRAP % capacity == WRAP / capacity * capacity;
    RemainderUnique(WRAP - WRAP % capacity, capacity, WRAP / capacity, 0);
  }

  /** The queue is a FIFO over all runs if and only if its capacity divides 2^32. */
  lemma FifoForeverIffCapacityDivides<T>(data: seq<T>, v: T, w: T)
    requires 0 < |data| < WRAP && v != w
    ensures (forall steps :: Run(Init(data), steps).Fifo()) <==> WRAP % |data| == 0
  {
    var c := |data|;
    if WRAP % c == 0 {
      forall steps
        ensures Run(Init(data), steps).Fifo()
      {
        StartedGrows(Init(data), steps);
        EveryRunIsFifo(data, steps);
      }
    } else {
      var r := WRAP % c;
      var steps := Schedule(v, WRAP - r, r);
      ScheduleIsCalm(data, v, WRAP - r, r);
      var q := Run(Init(data), steps);
      WrappedPushOverwrites(q, v, w);
      RunAppend(Init(data), steps, PushSteps(w) + PopSteps());
      var broken := Run(Init(data), steps + (PushSteps(w) + PopSteps()));
      assert broken.popped[WRAP - r] == w && broken.pushed[WRAP - r] == v;
      assert !broken.Fifo();
    }
  }

  // ------------------------------------------------------------ the class

  predicate OfProducer<T>(step: Step<T>) { step.PushCheck? || step.PushStore? || step.PushCount? }

  /** The steps one thread took in a run. */
  function Only<T>(steps: seq<Step<T>>, ofProducer: bool): seq<Step<T>> {
    if steps == [] then []
    else (if OfProducer(steps[0]) == ofProducer then [steps[0]] else []) + Only(steps[1..], ofProducer)
  }

  lemma {:induction false} OnlyAppend<T>(a: seq<Step<T>>, b: seq<Step<T>>, ofProducer: bool)
    ensures Only(a + b, ofProducer) == Only(a, ofProducer) + Only(b, ofProducer)
  {
    hide OfProducer;
    if a == [] {
      assert a + b == b;
    } else {
      OnlyAppend(a[1..], b, ofProducer);
      assert (a + b)[1..] == a[1..] + b;
      var head := if OfProducer(a[0]) == ofProducer then [a[0]] else [];
      Assoc(head, Only(a[1..], ofProducer), Only(b, ofProducer));
    }
  }

  /** Steps of the other thread, then one of ours: the run goes on, and so does our share of it. */
  lemma Extend<T>(q: Queue<T>, before: seq<Step<T>>, others: seq<Step<T>>, own: Step<T>, ofProducer: bool)
    requires Only(others, ofProducer) == [] && OfProducer(own) == ofProducer
    ensures Run(q, before + (others + [own])) == Next(Run(Run(q, before), others), own)
    ensures Only(before + (others + [own]), ofProducer) == Only(before, ofProducer) + [own]
  {
    RunAppend(q, before, others + [own]);
    RunAppend(Run(q, before), others, [own]);
    OnlyAppend(others, [own], ofProducer);
    OnlyAppend(before, others + [own], ofProducer);
    assert [own][1..] == [];
  }

  lemma Append<T>(q: Queue<T>, steps: seq<Step<T>>, own: Step<T>, ofProducer: bool)
    requires Only(steps, ofProducer) == [] && OfProducer(own) != ofProducer
    ensures Run(q, steps + [own]) == Next(Run(q, steps), own) && Only(steps + [own], ofProducer) == []
  {
    RunAppend(q, steps, [own]);
    OnlyAppend(steps, [own], ofProducer);
    assert [own][1..] == [];
  }

  lemma FirstStep<T>(q: Queue<T>, own: Step<T>, ofProducer: bool)
    requires OfProducer(own) == ofProducer
    ensures Run(q, [own]) == Next(q, own) && Only([own], ofProducer) == [own]
  {
    assert [own][1..] == [];
  }

  lemma SameProgress<T>(q: Queue<T>, r: Queue<T>)
    requires q.capacity == r.capacity && q.pushed == r.pushed && q.producer == r.producer && InStep(r)
    ensures InStep(q)
  {}

  lemma HeldIsOldest<T>(q: Queue<T>)
    requires Inv(q) && q.consumer.Holding?
    ensures |q.popped| < |q.pushed| && q.consumer.value == q.pushed[|q.popped|]
  {}

  /** The value a pop adds to the history is the one pushed at that place. */
  lemma PoppedIsOldest<T>(q: Queue<T>, r: Queue<T>)
    requires Inv(r) && q.pushed <= r.pushed && |q.popped| < |q.pushed| && |r.popped| == |q.popped| + 1
    ensures r.popped[|q.popped|] == q.pushed[|q.popped|]
  {}

  /** The shared object. While one thread is inside a call, the other takes any number of its own
      steps at every point where it can come between. */
  class FixedSizeLockFreeQueue<T(0)> {
    var data: array<T>
    var capacity: nat
    var pushedCount: nat
    var poppedCount: nat
    // Where each thread is, with the value it has in hand.
    var producer: Producer<T>
    var consumer: Consumer<T>
    ghost var pushed: seq<T>
    ghost var popped: seq<T>

    ghost function Model(): Queue<T>
      reads this, data
    {
      Queue(capacity, data[..], pushedCount, poppedCount, producer, consumer, pushed, popped)
    }

    ghost predicate Valid()
      reads this
    {
      && data.Length == capacity < WRAP
      && (producer.Admitted? || consumer.Permitted? ==> capacity != 0)
    }

    constructor (capacity: nat)
      requires capacity < WRAP
      ensures Valid() && fresh(data) && Model() == Init(data[..]) && this.capacity == capacity
    {
      this.capacity := capacity;
      data := new T[capacity];
      pushedCount, poppedCount, producer, consumer, pushed, popped := 0, 0, Resting, Waiting, [], [];
    }

    method ClearAndResizeUnsafe(newCapacity: nat)
      requires newCapacity < WRAP
      modifies this
      ensures Valid() && fresh(data) && Model() == Init(data[..]) && capacity == newCapacity
    {
      capacity := newCapacity;
      data := new T[newCapacity];
      pushedCount, poppedCount, producer, consumer, pushed, popped := 0, 0, Resting, Waiting, [], [];
    }

    /** Called by the producer; steps are its own and what the consumer did meanwhile. */
    method PushBack(value: T) returns (ok: bool, ghost steps: seq<Step<T>>)
      requires Valid() && producer.Resting?
      modifies this`producer, this`pushedCount, this`pushed, this`consumer, this`poppedCount, this`popped, data
      ensures Valid() && producer.Resting?
      ensures Model() == Run(old(Model()), steps)
      ensures Only(steps, true) == if ok then PushSteps(value) else [PushCheck(value)]
      ensures ok <==> capacity != 0 && !old(Model()).IsFull()
      ensures pushed == if ok then old(pushed) + [value] else old(pushed)
      ensures old(Inv(Model())) && InStep(Model()) ==> Inv(Model())
    {
      hide Inv, InStep, Run, Only;
      ghost var start := Model();
      FirstStep(start, PushCheck(value), true);
      steps := [PushCheck(value)];
      ok := CheckPush(value);
      if ok {
        ghost var others := ConsumerActs();
        StoreStep(value);
        Extend(start, steps, others, PushStore, true);
        steps := steps + (others + [PushStore]);
        others := ConsumerActs();
        PushCountStep();
        Extend(start, steps, others, PushCount, true);
        steps := steps + (others + [PushCount]);
      }
      if Inv(start) && InStep(Model()) { RunKeepsInv(start, steps); }
    }

    /** Called by the consumer: check, then read; the value stays in hand. */
    method ReadFront() returns (ok: bool, ghost steps: seq<Step<T>>)
      requires Valid() && consumer.Waiting?
      modifies this`consumer, this`producer, this`pushedCount, this`pushed, data
      ensures Valid() && Model() == Run(old(Model()), steps)
      ensures Only(steps, false) == if ok then [PopCheck, PopRead] else [PopCheck]
      ensures ok <==> capacity != 0 && !old(Model()).IsEmpty()
      ensures if ok then consumer.Holding? else consumer.Waiting?
      ensures old(pushed) <= pushed
    {
      hide Run, Only;
      ghost var start := Model();
      FirstStep(start, PopCheck, false);
      steps := [PopCheck];
      ok := CheckPop();
      if ok {
        ghost var others := ProducerActs();
        ReadStep();
        Extend(start, steps, others, PopRead, false);
        steps := steps + (others + [PopRead]);
      }
    }

    method PeekFront() returns (value: Option<T>, ghost steps: seq<Step<T>>)
      requires Valid() && consumer.Waiting?
      modifies this`consumer, this`producer, this`pushedCount, this`pushed, data
      ensures Valid() && consumer.Waiting? && Model() == Run(old(Model()), steps)
      ensures value.Some? <==> capacity != 0 && !old(Model()).IsEmpty()
      ensures old(Inv(Model())) && InStep(Model()) ==>
                && Inv(Model()) && old(pushed) <= pushed
                && (value.Some? ==> |popped| < |old(pushed)| && value.value == old(pushed)[|popped|])
    {
      hide Inv, InStep, Run, Only;
      ghost var start := Model();
      var ok;
      ok, steps := ReadFront();
      if !ok {
        if Inv(start) && InStep(Model()) { RunKeepsInv(start, steps); }
        return None, steps;
      }
      ghost var held := Model();
      value := Some(consumer.value);
      consumer := Waiting;
      RunAppend(start, steps, [PeekReturn]);
      FirstStep(held, PeekReturn, false);
      if Inv(start) && InStep(Model()) {
        SameProgress(held, Model());
        RunKeepsInv(start, steps);
        SizeIsExact(start);
        HeldIsOldest(held);
        RunKeepsInv(start, steps + [PeekReturn]);
      }
      steps := steps + [PeekReturn];
    }

    /** The value popped is the oldest one pushed and not yet popped. */
    method PopFront() returns (value: Option<T>, ghost steps: seq<Step<T>>)
      requires Valid() && consumer.Waiting?
      modifies this`consumer, this`poppedCount, this`popped, this`producer, this`pushedCount, this`pushed, data
      ensures Valid() && consumer.Waiting? && Model() == Run(old(Model()), steps)
      ensures Only(steps, false) == if value.Some? then PopSteps() else [PopCheck]
      ensures value.Some? <==> capacity != 0 && !old(Model()).IsEmpty()
      ensures popped == old(popped) + if value.Some? then [value.value] else []
      ensures old(Inv(Model())) && InStep(Model()) ==>
                && Inv(Model()) && old(pushed) <= pushed
                && (value.Some? ==> |old(popped)| < |old(pushed)| && value.value == old(pushed)[|old(popped)|])
    {
      hide Inv, InStep, Run, Only;
      ghost var start := Model();
      var ok;
      ok, steps := ReadFront();
      if !ok {
        if Inv(start) && InStep(Model()) { RunKeepsInv(start, steps); }
        return None, steps;
      }
      ghost var held := Model();
      ghost var others := ProducerActs();
      value := Some(consumer.value);
      PopCountStep();
      Extend(start, steps, others, PopCount, false);
      RunAppend(start, steps, others);
      steps := steps + (others + [PopCount]);
      if Inv(start) && InStep(Model()) {
        RunKeepsInv(start, steps);
        SizeIsExact(start);
        PoppedIsOldest(start, Model());
      }
    }

    /** Size() is the number of values waiting. */
    method Size() returns (n: nat)
      requires Valid() && Inv(Model())
      ensures n == |pushed| - |popped| <= capacity
    {
      SizeIsExact(Model());
      n := (pushedCount - poppedCount) % WRAP;
    }

    // -------------------------------------------------------- single steps

    method CheckPush(value: T) returns (ok: bool)
      requires Valid() && producer.Resting?
      modifies this`producer
      ensures Valid() && Model() == Next(old(Model()), PushCheck(value))
      ensures ok <==> capacity != 0 && !old(Model()).IsFull()
      ensures producer == if ok then Admitted(value) else Resting
    {
      ok := capacity != 0 && pushedCount != (poppedCount + capacity) % WRAP;
      if ok { producer := Admitted(value); }
    }

    method CheckPop() returns (ok: bool)
      requires Valid() && consumer.Waiting?
      modifies this`consumer
      ensures Valid() && Model() == Next(old(Model()), PopCheck)
      ensures ok <==> capacity != 0 && !old(Model()).IsEmpty()
      ensures consumer == if ok then Permitted else Waiting
    {
      ok := capacity != 0 && pushedCount != poppedCount;
      if ok { consumer := Permitted; }
    }

    method StoreStep(value: T)
      requires Valid() && producer == Admitted(value)
      modifies this`producer, data
      ensures Valid() && Model() == Next(old(Model()), PushStore)
    {
      data[pushedCount % capacity] := value;
      producer := Stored(value);
    }

    method PushCountStep()
      requires Valid() && producer.Stored?
      modifies this`pushedCount, this`producer, this`pushed
      ensures Valid() && Model() == Next(old(Model()), PushCount)
    {
      pushed := pushed + [producer.value];
      pushedCount, producer := (pushedCount + 1) % WRAP, Resting;
    }

    method ReadStep()
      requires Valid() && consumer.Permitted?
      modifies this`consumer
      ensures Valid() && Model() == Next(old(Model()), PopRead)
    {
      consumer := Holding(data[poppedCount % capacity]);
    }

    method PopCountStep()
      requires Valid() && consumer.Holding?
      modifies this`poppedCount, this`consumer, this`popped
      ensures Valid() && Model() == Next(old(Model()), PopCount)
    {
      popped := popped + [consumer.value];
      poppedCount, consumer := (poppedCount + 1) % WRAP, Waiting;
    }

    /** Whatever the consumer thread does meanwhile. */
    method ConsumerActs() returns (ghost steps: seq<Step<T>>)
      requires Valid()
      modifies this`poppedCount, this`consumer, this`popped
      ensures Valid() && Model() == Run(old(Model()), steps) && Only(steps, true) == []
    {
      var count: nat := *;
      steps := [];
      while count > 0
        invariant Valid() && Model() == Run(old(Model()), steps) && Only(steps, true) == []
      {
        ghost var own: Step<T>;
        if consumer.Waiting? {
          if capacity != 0 && pushedCount != poppedCount { consumer := Permitted; }
          own := PopCheck;
        } else if consumer.Permitted? {
          ReadStep();
          own := PopRead;
        } else {
          var peekOnly: bool := *;
          if peekOnly { consumer := Waiting; } else { PopCountStep(); }
          own := if peekOnly then PeekReturn else PopCount;
        }
        Append(old(Model()), steps, own, true);
        steps := steps + [own];
        count := count - 1;
      }
    }

    /** Whatever the producer thread does meanwhile. */
    method ProducerActs() returns (ghost steps: seq<Step<T>>)
      requires Valid()
      modifies this`pushedCount, this`producer, this`pushed, data
      ensures Valid() && Model() == Run(old(Model()), steps) && Only(steps, false) == []
      ensures old(pushed) <= pushed
    {
      var count: nat := *;
      steps := [];
      while count > 0
        invariant Valid() && Model() == Run(old(Model()), steps) && Only(steps, false) == []
        invariant old(pushed) <= pushed
      {
        ghost var own: Step<T>;
        if producer.Resting? {
          var value: T := *;
          if capacity != 0 && pushedCount != (poppedCount + capacity) % WRAP { producer := Admitted(value); }
          own := PushCheck(value);
        } else if producer.Admitted? {
          StoreStep(producer.value);
          own := PushStore;
        } else {
          PushCountStep();
          own := PushCount;
        }
        Append(old(Model()), steps, own, false);
        steps := steps + [own];
        count := count - 1;
      }
    }
  }
}
