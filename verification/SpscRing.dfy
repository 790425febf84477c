/** The fixed-size single-producer/single-consumer ring (libs/spscqueue.hpp): one
    transition per index load, index store or access to a record. */
module SpscRing {
  import opened Common

  /** Raw memory, a constructed record, or one whose value was moved out. */
  datatype Record<T> = Raw | Live(v: T) | Moved

  datatype ProducerResult = NoCall | Enqueued(ok: bool) | Full(full: bool) | ProducerGuess(size: int)

  datatype Producer<T> =
    | PDone(result: ProducerResult)
    | PLoadWrite(v: T)
    | PLoadRead(v: T, cur: nat)
    | PConstruct(v: T, cur: nat)
    | PStore(v: T, cur: nat)
    | PFullWrite
    | PFullRead(cur: nat)
    | PSizeWrite
    | PSizeWriteRead(w: nat)
    | PSizeRead
    | PSizeReadWrite(r: nat, ticket: nat)

  datatype ConsumerResult<T> = NoConsume | Dequeued(x: Option<T>) | Empty(empty: bool) | ConsumerGuess(size: int)

  datatype Consumer<T> =
    | CDone(result: ConsumerResult<T>)
    | CLoadRead
    | CLoadWrite(cur: nat)
    | CPopRead
    | CMove(cur: nat)
    | CDestroy(cur: nat, x: T)
    | CStore(cur: nat, x: T)
    | CEmptyRead
    | CEmptyWrite(cur: nat)
    | CSizeWrite
    | CSizeWriteRead(w: nat, ticket: nat)
    | CSizeRead
    | CSizeReadWrite(r: nat)

  /** `enq` and `deq` are history: the values published and removed so far. */
  datatype State<T> = State(
    records: seq<Record<T>>,
    readIndex: nat,
    writeIndex: nat,
    producer: Producer<T>,
    consumer: Consumer<T>,
    enq: seq<T>,
    deq: seq<T>)

  datatype Action<T> =
    | StartEnqueue(v: T) | StartFull | StartSizeWriteFirst | StartSizeReadFirst
    | StartDequeue | StartPop | StartEmpty | Go

  datatype Agent = TheProducer | TheConsumer

  /** size_ is one more than the requested capacity. */
  function Initial<T>(capacity: nat): State<T> {
    State(seq(capacity + 1, _ => Raw), 0, 0, PDone(NoCall), CDone(NoConsume), [], [])
  }

  function Next(i: nat, n: nat): nat { if i + 1 == n then 0 else i + 1 }

  /** The wrap-around difference that sizeGuess() computes. */
  function Distance(w: nat, r: nat, n: nat): int {
    if w < r then w - r + n else w - r
  }

  function Size<T>(s: State<T>): int { |s.enq| - |s.deq| }

  function ProducerStep<T>(s: State<T>, a: Action<T>): State<T> {
    var n := |s.records|;
    match s.producer
    case PDone(_) =>
      (match a
       case StartEnqueue(v) => s.(producer := PLoadWrite(v))
       case StartFull => s.(producer := PFullWrite)
       case StartSizeWriteFirst => s.(producer := PSizeWrite)
       case StartSizeReadFirst => s.(producer := PSizeRead)
       case _ => s)
    case PLoadWrite(v) => s.(producer := PLoadRead(v, s.writeIndex))
    case PLoadRead(v, cur) =>
      if Next(cur, n) != s.readIndex then s.(producer := PConstruct(v, cur))
      else s.(producer := PDone(Enqueued(false)))
    case PConstruct(v, cur) =>
      if cur < n then s.(records := s.records[cur := Live(v)], producer := PStore(v, cur)) else s
    case PStore(v, cur) =>
      s.(writeIndex := Next(cur, n), enq := s.enq + [v], producer := PDone(Enqueued(true)))
    case PFullWrite => s.(producer := PFullRead(s.writeIndex))
    case PFullRead(cur) => s.(producer := PDone(Full(Next(cur, n) == s.readIndex)))
    case PSizeWrite => s.(producer := PSizeWriteRead(s.writeIndex))
    case PSizeWriteRead(w) => s.(producer := PDone(ProducerGuess(Distance(w, s.readIndex, n))))
    case PSizeRead => s.(producer := PSizeReadWrite(s.readIndex, |s.deq|))
    case PSizeReadWrite(r, _) => s.(producer := PDone(ProducerGuess(Distance(s.writeIndex, r, n))))
  }

  function ConsumerStep<T>(s: State<T>, a: Action<T>): State<T> {
    var n := |s.records|;
    match s.consumer
    case CDone(_) =>
      (match a
       case StartDequeue => s.(consumer := CLoadRead)
       case StartPop => if Size(s) > 0 then s.(consumer := CPopRead) else s
       case StartEmpty => s.(consumer := CEmptyRead)
       case StartSizeWriteFirst => s.(consumer := CSizeWrite)
       case StartSizeReadFirst => s.(consumer := CSizeRead)
       case _ => s)
    case CLoadRead => s.(consumer := CLoadWrite(s.readIndex))
    case CLoadWrite(cur) =>
      if cur == s.writeIndex then s.(consumer := CDone(Dequeued(None)))
      else s.(consumer := CMove(cur))
    case CPopRead => s.(consumer := CMove(s.readIndex))
    case CMove(cur) =>
      if cur < n && s.records[cur].Live? then
        s.(records := s.records[cur := Moved], consumer := CDestroy(cur, s.records[cur].v))
      else s
    case CDestroy(cur, x) =>
      if cur < n then s.(records := s.records[cur := Raw], consumer := CStore(cur, x)) else s
    case CStore(cur, x) =>
      s.(readIndex := Next(cur, n), deq := s.deq + [x], consumer := CDone(Dequeued(Some(x))))
    case CEmptyRead => s.(consumer := CEmptyWrite(s.readIndex))
    case CEmptyWrite(cur) => s.(consumer := CDone(Empty(cur == s.writeIndex)))
    case CSizeWrite => s.(consumer := CSizeWriteRead(s.writeIndex, |s.enq|))
    case CSizeWriteRead(w, _) => s.(consumer := CDone(ConsumerGuess(Distance(w, s.readIndex, n))))
    case CSizeRead => s.(consumer := CSizeReadWrite(s.readIndex))
    case CSizeReadWrite(r) => s.(consumer := CDone(ConsumerGuess(Distance(s.writeIndex, r, n))))
  }

  function Exec<T>(s: State<T>, who: Agent, a: Action<T>): State<T> {
    if who.TheProducer? then ProducerStep(s, a) else ConsumerStep(s, a)
  }

  function Run<T>(s: State<T>, schedule: seq<(Agent, Action<T>)>): State<T>
    decreases |schedule|
  {
    if |schedule| == 0 then s
    else
      var (who, a) := schedule[|schedule| - 1];
      Exec(Run(s, schedule[..|schedule| - 1]), who, a)
  }

  // ----- The invariant -----

  ghost predicate Shape<T>(s: State<T>) {
    && |s.records| >= 2
    && |s.deq| <= |s.enq| < |s.deq| + |s.records|
    && s.deq == s.enq[..|s.deq|]
    && s.readIndex == Slot(|s.deq|, |s.records|)
    && s.writeIndex == Slot(|s.enq|, |s.records|)
  }

  /** What the record of ticket `k` holds while `k` is within a lap of the
      consumer: the published value, or raw memory, with two exceptions for the
      record the consumer is taking out and the one the producer is filling. */
  function Expected<T>(s: State<T>, k: nat): Record<T>
    requires |s.deq| <= |s.enq|
  {
    if k == |s.deq| && s.consumer.CDestroy? then Moved
    else if k == |s.deq| && s.consumer.CStore? then Raw
    else if |s.deq| <= k < |s.enq| then Live(s.enq[k])
    else if k == |s.enq| && s.producer.PStore? then Live(s.producer.v)
    else Raw
  }

  ghost predicate RecordsOk<T>(s: State<T>)
    requires Shape(s)
  {
    forall k: nat :: |s.deq| <= k < |s.deq| + |s.records| ==>
      s.records[Slot(k, |s.records|)] == Expected(s, k)
  }

  ghost predicate ProducerOk<T>(s: State<T>)
    requires Shape(s)
  {
    match s.producer
    case PLoadRead(_, cur) => cur == s.writeIndex
    case PConstruct(_, cur) => cur == s.writeIndex && Size(s) + 1 < |s.records|
    case PStore(_, cur) => cur == s.writeIndex && Size(s) + 1 < |s.records|
    case PFullRead(cur) => cur == s.writeIndex
    case PSizeWriteRead(w) => w == s.writeIndex
    case PSizeReadWrite(r, ticket) =>
      ticket <= |s.deq| && |s.enq| < ticket + |s.records| && r == Slot(ticket, |s.records|)
    case PDone(Full(full)) => !full ==> Size(s) + 1 < |s.records|
    case PDone(ProducerGuess(g)) => Size(s) <= g < |s.records|
    case _ => true
  }

  ghost predicate ConsumerOk<T>(s: State<T>)
    requires Shape(s)
  {
    match s.consumer
    case CLoadWrite(cur) => cur == s.readIndex
    case CPopRead => Size(s) > 0
    case CMove(cur) => cur == s.readIndex && Size(s) > 0
    case CDestroy(cur, x) => cur == s.readIndex && Size(s) > 0 && x == s.enq[|s.deq|]
    case CStore(cur, x) => cur == s.readIndex && Size(s) > 0 && x == s.enq[|s.deq|]
    case CEmptyWrite(cur) => cur == s.readIndex
    case CSizeWriteRead(w, ticket) => |s.deq| <= ticket <= |s.enq| && w == Slot(ticket, |s.records|)
    case CSizeReadWrite(r) => r == s.readIndex
    case CDone(Dequeued(Some(x))) => |s.deq| > 0 && x == s.deq[|s.deq| - 1]
    case CDone(Empty(empty)) => !empty ==> Size(s) > 0
    case CDone(ConsumerGuess(g)) => 0 <= g <= Size(s)
    case _ => true
  }

  ghost predicate Inv<T>(s: State<T>) {
    Shape(s) && RecordsOk(s) && ProducerOk(s) && ConsumerOk(s)
  }

  // ----- Every step keeps the invariant -----

  lemma {:induction false} SlotNext(k: nat, n: nat)
    requires n > 0
    ensures Slot(k + 1, n) == Next(Slot(k, n), n)
    decreases k
  {
    if k >= n {
      SlotNext(k - n, n);
    }
  }

  /** Index equality is ticket equality within a lap. */
  lemma SlotEqual(j: nat, k: nat, n: nat)
    requires n > 0 && j <= k < j + n
    ensures Slot(j, n) == Slot(k, n) <==> j == k
  {
    if j < k {
      SlotDistinct(j, k, n);
    }
  }

  /** The ring is full exactly when the next write position is the read position. */
  lemma FullTest(r: nat, w: nat, n: nat)
    requires n >= 2 && r <= w < r + n
    ensures Next(Slot(w, n), n) == Slot(r, n) <==> w + 1 == r + n
  {
    SlotNext(w, n);
    assert Slot(r + n, n) == Slot(r, n);
    if w + 1 < r + n {
      SlotEqual(r, w + 1, n);
    }
  }

  lemma {:induction false} DistanceIsSize(r: nat, w: nat, n: nat)
    requires n > 0 && r <= w < r + n
    ensures Distance(Slot(w, n), Slot(r, n), n) == w - r
    decreases r
  {
    if r >= n {
      DistanceIsSize(r - n, w - n, n);
    }
  }

  lemma InitialInv<T>(capacity: nat)
    requires capacity >= 1
    ensures Inv(Initial<T>(capacity))
  {
  }

  /** Storing into ticket `p`'s record leaves the rest of the lap alone. */
  lemma StoreRecord<T>(records: seq<Record<T>>, base: nat, p: nat, x: Record<T>)
    requires |records| > 0 && base <= p < base + |records|
    ensures var n := |records|; var after := records[Slot(p, n) := x];
      forall k: nat {:trigger Slot(k, n)} :: base <= k < base + n ==>
        after[Slot(k, n)] == if k == p then x else records[Slot(k, n)]
  {
    LapDistinct(p, |records|);
  }

  /** Steps that touch no record and move no ticket. */
  lemma QuietRecords<T>(s: State<T>, s': State<T>)
    requires Inv(s) && Shape(s')
    requires s'.records == s.records && s'.enq == s.enq && s'.deq == s.deq
    requires s'.producer.PStore? == s.producer.PStore? && (s.producer.PStore? ==> s'.producer == s.producer)
    requires s'.consumer.CDestroy? == s.consumer.CDestroy? && s'.consumer.CStore? == s.consumer.CStore?
    ensures RecordsOk(s')
  {
    assert forall k: nat :: Expected(s', k) == Expected(s, k);
  }

  lemma ConstructInv<T>(s: State<T>, a: Action<T>)
    requires Inv(s) && s.producer.PConstruct?
    ensures Inv(ProducerStep(s, a))
  {
    var n, s' := |s.records|, ProducerStep(s, a);
    StoreRecord(s.records, |s.deq|, |s.enq|, Live(s.producer.v));
    forall k: nat | |s.deq| <= k < |s.deq| + n
      ensures s'.records[Slot(k, n)] == Expected(s', k)
    {
      assert s.records[Slot(k, n)] == Expected(s, k);
    }
  }

  lemma PublishInv<T>(s: State<T>, a: Action<T>)
    requires Inv(s) && s.producer.PStore?
    ensures Inv(ProducerStep(s, a))
  {
    var n, s' := |s.records|, ProducerStep(s, a);
    SlotNext(|s.enq|, n);
    forall k: nat | |s.deq| <= k < |s.deq| + n
      ensures s'.records[Slot(k, n)] == Expected(s', k)
    {
      assert s.records[Slot(k, n)] == Expected(s, k);
    }
  }

  lemma QuietProducerOk<T>(s: State<T>, a: Action<T>)
    requires Shape(s) && ProducerOk(s) && !s.producer.PConstruct? && !s.producer.PStore?
    ensures Shape(ProducerStep(s, a)) && ProducerOk(ProducerStep(s, a))
  {
    hide Slot, Next, Distance;
    var n := |s.records|;
    FullTest(|s.deq|, |s.enq|, n);
    if s.producer.PSizeWriteRead? {
      DistanceIsSize(|s.deq|, |s.enq|, n);
    } else if s.producer.PSizeReadWrite? {
      DistanceIsSize(s.producer.ticket, |s.enq|, n);
    }
  }

  lemma QuietProducerInv<T>(s: State<T>, a: Action<T>)
    requires Inv(s) && !s.producer.PConstruct? && !s.producer.PStore?
    ensures Inv(ProducerStep(s, a))
  {
    hide Slot, Next, Distance, RecordsOk, ProducerOk;
    QuietProducerOk(s, a);
    QuietRecords(s, ProducerStep(s, a));
  }

  lemma ProducerStepInv<T>(s: State<T>, a: Action<T>)
    requires Inv(s)
    ensures Inv(ProducerStep(s, a))
  {
    hide Inv, ProducerStep;
    if s.producer.PConstruct? {
      ConstructInv(s, a);
    } else if s.producer.PStore? {
      PublishInv(s, a);
    } else {
      QuietProducerInv(s, a);
    }
  }

  lemma TakeOutInv<T>(s: State<T>, a: Action<T>)
    requires Inv(s) && (s.consumer.CMove? || s.consumer.CDestroy?)
    ensures Inv(ConsumerStep(s, a))
  {
    var n, s' := |s.records|, ConsumerStep(s, a);
    assert s.records[Slot(|s.deq|, n)] == Expected(s, |s.deq|);
    StoreRecord(s.records, |s.deq|, |s.deq|, s'.records[Slot(|s.deq|, n)]);
    forall k: nat | |s.deq| <= k < |s.deq| + n
      ensures s'.records[Slot(k, n)] == Expected(s', k)
    {
      assert s.records[Slot(k, n)] == Expected(s, k);
    }
  }

  lemma RemoveInv<T>(s: State<T>, a: Action<T>)
    requires Inv(s) && s.consumer.CStore?
    ensures Inv(ConsumerStep(s, a))
  {
    var n, s' := |s.records|, ConsumerStep(s, a);
    SlotNext(|s.deq|, n);
    assert s.records[Slot(|s.deq|, n)] == Expected(s, |s.deq|);
    assert Slot(|s.deq| + n, n) == Slot(|s.deq|, n);
    forall k: nat | |s'.deq| <= k < |s'.deq| + n
      ensures s'.records[Slot(k, n)] == Expected(s', k)
    {
      if k < |s.deq| + n {
        assert s.records[Slot(k, n)] == Expected(s, k);
      }
    }
  }

  lemma QuietConsumerOk<T>(s: State<T>, a: Action<T>)
    requires Shape(s) && ConsumerOk(s) && !s.consumer.CMove? && !s.consumer.CDestroy? && !s.consumer.CStore?
    ensures Shape(ConsumerStep(s, a)) && ConsumerOk(ConsumerStep(s, a))
  {
    hide Slot, Next, Distance;
    var n := |s.records|;
    SlotEqual(|s.deq|, |s.enq|, n);
    if s.consumer.CSizeWriteRead? {
      DistanceIsSize(|s.deq|, s.consumer.ticket, n);
    } else if s.consumer.CSizeReadWrite? {
      DistanceIsSize(|s.deq|, |s.enq|, n);
    }
  }

  lemma QuietConsumerInv<T>(s: State<T>, a: Action<T>)
    requires Inv(s) && !s.consumer.CMove? && !s.consumer.CDestroy? && !s.consumer.CStore?
    ensures Inv(ConsumerStep(s, a))
  {
    hide Slot, Next, Distance, RecordsOk, ConsumerOk;
    QuietConsumerOk(s, a);
    QuietRecords(s, ConsumerStep(s, a));
  }

  lemma ConsumerStepInv<T>(s: State<T>, a: Action<T>)
    requires Inv(s)
    ensures Inv(ConsumerStep(s, a))
  {
    hide Inv, ConsumerStep;
    if s.consumer.CMove? || s.consumer.CDestroy? {
      TakeOutInv(s, a);
    } else if s.consumer.CStore? {
      RemoveInv(s, a);
    } else {
      QuietConsumerInv(s, a);
    }
  }

  lemma {:induction false} RunInv<T>(s: State<T>, schedule: seq<(Agent, Action<T>)>)
    requires Inv(s)
    ensures Inv(Run(s, schedule))
    decreases |schedule|
  {
    hide Inv, ProducerStep, ConsumerStep;
    if |schedule| > 0 {
      RunInv(s, schedule[..|schedule| - 1]);
      var (who, a) := schedule[|schedule| - 1];
      var r := Run(s, schedule[..|schedule| - 1]);
      ProducerStepInv(r, a);
      ConsumerStepInv(r, a);
    }
  }

  ghost predicate Reachable<T(!new)>(s: State<T>) {
    exists capacity: nat, schedule: seq<(Agent, Action<T>)> ::
      capacity >= 1 && s == Run(Initial(capacity), schedule)
  }

  lemma ReachableInv<T(!new)>(s: State<T>)
    requires Reachable(s)
    ensures Inv(s)
  {
    hide Inv;
    var capacity: nat, schedule: seq<(Agent, Action<T>)> :|
      capacity >= 1 && s == Run(Initial(capacity), schedule);
    InitialInv<T>(capacity);
    RunInv(Initial(capacity), schedule);
  }

  // ----- What every run guarantees -----

  /** A FIFO of at most size_ - 1 items: what was removed is a prefix of what was
      published, each dequeue returned the item it removed, and the rest lies in
      order in the records from the read index. */
  lemma RingIsFifo<T(!new)>(s: State<T>)
    requires Reachable(s)
    ensures s.deq <= s.enq && |s.enq| - |s.deq| <= |s.records| - 1
    ensures s.consumer.CDone? && s.consumer.result.Dequeued? && s.consumer.result.x.Some? ==>
      |s.deq| > 0 && s.consumer.result.x.value == s.deq[|s.deq| - 1]
    ensures s.consumer.CDone? && s.producer.PDone? ==>
      forall k: nat :: |s.deq| <= k < |s.deq| + |s.records| ==>
        s.records[Slot(k, |s.records|)] == if k < |s.enq| then Live(s.enq[k]) else Raw
  {
    ReachableInv(s);
  }

  /** The record one side is working on is never the record the other side is
      working on: a record is constructed in raw memory, and moved out or
      destroyed only while it holds the oldest item. */
  lemma SidesNeverShareRecord<T(!new)>(s: State<T>)
    requires Reachable(s)
    ensures s.producer.PConstruct? || s.producer.PStore? ==>
      s.consumer.CMove? || s.consumer.CDestroy? || s.consumer.CStore? ==> s.producer.cur != s.consumer.cur
    ensures s.producer.PConstruct? ==> s.producer.cur < |s.records| && s.records[s.producer.cur] == Raw
    ensures s.consumer.CMove? ==>
      s.consumer.cur < |s.records| && |s.deq| < |s.enq| && s.records[s.consumer.cur] == Live(s.enq[|s.deq|])
  {
    ReachableInv(s);
    SlotEqual(|s.deq|, |s.enq|, |s.records|);
    assert s.records[Slot(|s.enq|, |s.records|)] == Expected(s, |s.enq|);
    assert s.records[Slot(|s.deq|, |s.records|)] == Expected(s, |s.deq|);
  }

  /** enqueue() refuses, and isFull() says so, exactly when the ring holds
      size_ - 1 items at the load of the read index; likewise try_dequeue() and
      isEmpty() at the load of the write index. */
  lemma RefusalsAreExact<T(!new)>(s: State<T>, a: Action<T>)
    requires Reachable(s)
    ensures s.producer.PLoadRead? ==>
      (ProducerStep(s, a).producer == PDone(Enqueued(false)) <==> Size(s) == |s.records| - 1)
    ensures s.producer.PFullRead? ==>
      ProducerStep(s, a).producer == PDone(Full(Size(s) == |s.records| - 1))
    ensures s.consumer.CLoadWrite? ==>
      (ConsumerStep(s, a).consumer == CDone(Dequeued(None)) <==> Size(s) == 0)
    ensures s.consumer.CEmptyWrite? ==>
      ConsumerStep(s, a).consumer == CDone(Empty(Size(s) == 0))
  {
    ReachableInv(s);
    FullTest(|s.deq|, |s.enq|, |s.records|);
    SlotEqual(|s.deq|, |s.enq|, |s.records|);
  }

  lemma {:induction false} RecordsStay<T>(s: State<T>, schedule: seq<(Agent, Action<T>)>)
    ensures |Run(s, schedule).records| == |s.records|
    decreases |schedule|
  {
    if |schedule| > 0 {
      RecordsStay(s, schedule[..|schedule| - 1]);
    }
  }

  /** A ring made for `capacity` items: in every run it holds no more than that, and enqueue()
      refuses, and isFull() says so, exactly when it holds that many. */
  lemma HoldsItsCapacity<T(!new)>(capacity: nat, schedule: seq<(Agent, Action<T>)>, a: Action<T>)
    requires capacity >= 1
    ensures var s := Run(Initial(capacity), schedule);
      && |s.records| == capacity + 1 && 0 <= Size(s) <= capacity
      && (s.producer.PLoadRead? ==>
            (ProducerStep(s, a).producer == PDone(Enqueued(false)) <==> Size(s) == capacity))
      && (s.producer.PFullRead? ==> ProducerStep(s, a).producer == PDone(Full(Size(s) == capacity)))
  {
    hide ProducerStep, ConsumerStep;
    var s := Run(Initial(capacity), schedule);
    RecordsStay(Initial<T>(capacity), schedule);
    assert Reachable(s);
    RefusalsAreExact(s, a);
    RingIsFifo(s);
  }

  /** A size the producer obtained is still an upper bound, and one the consumer
      obtained still a lower bound, until that side's next call. */
  lemma SizeGuessBounds<T(!new)>(s: State<T>)
    requires Reachable(s)
    ensures s.producer.PDone? && s.producer.result.ProducerGuess? ==>
      Size(s) <= s.producer.result.size < |s.records|
    ensures s.consumer.CDone? && s.consumer.result.ConsumerGuess? ==>
      0 <= s.consumer.result.size <= Size(s)
  {
    ReachableInv(s);
  }

  // ----- Whole calls -----

  predicate ProducerStart<T>(a: Action<T>) {
    a.StartEnqueue? || a.StartFull? || a.StartSizeWriteFirst? || a.StartSizeReadFirst?
  }

  predicate ConsumerStart<T>(a: Action<T>) {
    a.StartDequeue? || a.StartPop? || a.StartEmpty? || a.StartSizeWriteFirst? || a.StartSizeReadFirst?
  }

  /** A schedule that begins with `who` starting a call and in which `who` starts no
      other. */
  ghost predicate IsCall<T(!new)>(schedule: seq<(Agent, Action<T>)>, who: Agent, start: Action<T>) {
    && |schedule| > 0 && schedule[0] == (who, start)
    && forall i :: 0 < i < |schedule| && schedule[i].0 == who ==> schedule[i].1.Go?
  }

  /** `s'` is where one call of `who`, finished or not, can bring `s` while the other
      side runs. */
  ghost predicate CallRan<T(!new)>(s: State<T>, s': State<T>, who: Agent, start: Action<T>) {
    exists schedule :: IsCall(schedule, who, start) && s' == Run(s, schedule)
  }

  /** The run of `schedule` passes through a state with `size` items. */
  ghost predicate SawSize<T>(s: State<T>, schedule: seq<(Agent, Action<T>)>, size: int) {
    exists i :: 0 <= i <= |schedule| && Size(Run(s, schedule[..i])) == size
  }

  /** `CallRan` through a state with `size` items. */
  ghost predicate CallSaw<T(!new)>(s: State<T>, s': State<T>, who: Agent, start: Action<T>, size: int) {
    exists schedule :: IsCall(schedule, who, start) && s' == Run(s, schedule) && SawSize(s, schedule, size)
  }

  lemma {:induction false} RunAppend<T>(s: State<T>, x: seq<(Agent, Action<T>)>, y: seq<(Agent, Action<T>)>)
    ensures Run(s, x + y) == Run(Run(s, x), y)
    decreases |y|
  {
    hide Exec;
    if |y| == 0 {
      assert x + y == x;
    } else {
      RunAppend(s, x, y[..|y| - 1]);
      assert (x + y)[..|x + y| - 1] == x + y[..|y| - 1];
    }
  }

  /** The sizes that the producer's call has seen by its present state. */
  ghost predicate ProducerSaw<T>(s: State<T>, schedule: seq<(Agent, Action<T>)>, m: State<T>) {
    match m.producer
    case PDone(Enqueued(ok)) => !ok ==> SawSize(s, schedule, |m.records| - 1)
    case PDone(Full(full)) => full ==> SawSize(s, schedule, |m.records| - 1)
    case PDone(ProducerGuess(g)) => SawSize(s, schedule, g)
    case PSizeReadWrite(_, ticket) => SawSize(s, schedule, |m.enq| - ticket)
    case _ => true
  }

  ghost predicate ConsumerSaw<T>(s: State<T>, schedule: seq<(Agent, Action<T>)>, m: State<T>) {
    match m.consumer
    case CDone(Dequeued(x)) => x.None? ==> SawSize(s, schedule, 0)
    case CDone(Empty(empty)) => empty ==> SawSize(s, schedule, 0)
    case CDone(ConsumerGuess(g)) => SawSize(s, schedule, g)
    case CSizeWriteRead(_, ticket) => SawSize(s, schedule, ticket - |m.deq|)
    case _ => true
  }

  lemma SawMore<T>(s: State<T>, before: seq<(Agent, Action<T>)>, schedule: seq<(Agent, Action<T>)>, size: int)
    requires before <= schedule && SawSize(s, before, size)
    ensures SawSize(s, schedule, size)
  {
    hide Run, Size;
    var i :| 0 <= i <= |before| && Size(Run(s, before[..i])) == size;
    assert before[..i] == schedule[..i];
  }

  lemma ProducerLoads<T(!new)>(s: State<T>, before: seq<(Agent, Action<T>)>, m: State<T>, a: Action<T>)
    requires Inv(m) && m == Run(s, before) && ProducerSaw(s, before, m) && a.Go?
    ensures ProducerSaw(s, before, ProducerStep(m, a))
  {
    FullTest(|m.deq|, |m.enq|, |m.records|);
    DistanceIsSize(|m.deq|, |m.enq|, |m.records|);
    assert before[..|before|] == before;
    assert SawSize(s, before, Size(m));
    if m.producer.PSizeReadWrite? {
      DistanceIsSize(m.producer.ticket, |m.enq|, |m.records|);
    }
    hide SawSize, Slot, RecordsOk, Run;
  }

  lemma ConsumerLoads<T(!new)>(s: State<T>, before: seq<(Agent, Action<T>)>, m: State<T>, a: Action<T>)
    requires Inv(m) && m == Run(s, before) && ConsumerSaw(s, before, m) && a.Go?
    ensures ConsumerSaw(s, before, ConsumerStep(m, a))
  {
    SlotEqual(|m.deq|, |m.enq|, |m.records|);
    DistanceIsSize(|m.deq|, |m.enq|, |m.records|);
    assert before[..|before|] == before;
    assert SawSize(s, before, Size(m));
    if m.consumer.CSizeWriteRead? {
      DistanceIsSize(|m.deq|, m.consumer.ticket, |m.records|);
    }
    hide SawSize, Slot, RecordsOk, Run;
  }

  /** The other side changes nothing of what a call saw. */
  lemma OtherSideLoads<T>(s: State<T>, before: seq<(Agent, Action<T>)>, m: State<T>, a: Action<T>)
    ensures ProducerSaw(s, before, m) ==> ProducerSaw(s, before, ConsumerStep(m, a))
    ensures ConsumerSaw(s, before, m) ==> ConsumerSaw(s, before, ProducerStep(m, a))
  {
    hide SawSize;
  }

  lemma StartsCall<T>(s: State<T>, start: Action<T>, schedule: seq<(Agent, Action<T>)>)
    ensures s.producer.PDone? && ProducerStart(start) ==> ProducerSaw(s, schedule, ProducerStep(s, start))
    ensures s.consumer.CDone? && ConsumerStart(start) && (start.StartPop? ==> Size(s) > 0) ==>
      ConsumerSaw(s, schedule, ConsumerStep(s, start))
  {
  }

  /** What a call saw it keeps having seen. */
  lemma SawStays<T>(s: State<T>, before: seq<(Agent, Action<T>)>, schedule: seq<(Agent, Action<T>)>, m: State<T>)
    requires before <= schedule
    ensures ProducerSaw(s, before, m) ==> ProducerSaw(s, schedule, m)
    ensures ConsumerSaw(s, before, m) ==> ConsumerSaw(s, schedule, m)
  {
    hide SawSize, Run;
    forall size | SawSize(s, before, size)
      ensures SawSize(s, schedule, size)
    {
      SawMore(s, before, schedule, size);
    }
  }

  /** Whatever a call of the producer answers was so at an instant of the call: a refusal
      and a full ring mean size_ - 1 items, and sizeGuess() gives the number of items at
      one of its two loads. */
  lemma {:induction false} ProducerCall<T(!new)>(s: State<T>, start: Action<T>, schedule: seq<(Agent, Action<T>)>)
    requires Inv(s) && s.producer.PDone? && ProducerStart(start) && IsCall(schedule, TheProducer, start)
    ensures Inv(Run(s, schedule)) && ProducerSaw(s, schedule, Run(s, schedule))
    decreases |schedule|
  {
    var n := |schedule| - 1;
    var (who, a) := schedule[n];
    var before := schedule[..n];
    hide Inv, SawSize, ProducerStep, ConsumerStep, ProducerSaw, ConsumerSaw;
    RunInv(s, schedule);
    if n == 0 {
      StartsCall(s, start, schedule);
      assert Run(s, before) == s;
    } else {
      ProducerCall(s, start, before);
      var m := Run(s, before);
      if who.TheProducer? {
        ProducerLoads(s, before, m, a);
      } else {
        OtherSideLoads(s, before, m, a);
      }
      SawStays(s, before, schedule, Exec(m, who, a));
    }
  }

  /** The same for the consumer, where nothing means no items. */
  lemma {:induction false} ConsumerCall<T(!new)>(s: State<T>, start: Action<T>, schedule: seq<(Agent, Action<T>)>)
    requires Inv(s) && s.consumer.CDone? && ConsumerStart(start) && (start.StartPop? ==> Size(s) > 0)
    requires IsCall(schedule, TheConsumer, start)
    ensures Inv(Run(s, schedule)) && ConsumerSaw(s, schedule, Run(s, schedule))
    decreases |schedule|
  {
    var n := |schedule| - 1;
    var (who, a) := schedule[n];
    var before := schedule[..n];
    hide Inv, SawSize, ProducerStep, ConsumerStep, ProducerSaw, ConsumerSaw;
    RunInv(s, schedule);
    if n == 0 {
      StartsCall(s, start, schedule);
      assert Run(s, before) == s;
    } else {
      ConsumerCall(s, start, before);
      var m := Run(s, before);
      if who.TheConsumer? {
        ConsumerLoads(s, before, m, a);
      } else {
        OtherSideLoads(s, before, m, a);
      }
      SawStays(s, before, schedule, Exec(m, who, a));
    }
  }
}
