/** The operations of libs/spscqueue.hpp:75-162 as written: they read and write the
    records and the two indices in place, and the other side runs between any two
    accesses. Each is one call in a run of module SpscRing from the state it was called
    in. */
module SpscRingProgram {
  import opened Common
  import opened SpscRing

  ghost predicate OnlyOf<T>(schedule: seq<(Agent, Action<T>)>, who: Agent) {
    forall i :: 0 <= i < |schedule| ==> schedule[i].0 == who
  }

  /** `s'` is where `who` alone can bring `s`. */
  ghost predicate Ran<T(!new)>(s: State<T>, s': State<T>, who: Agent) {
    exists schedule :: OnlyOf(schedule, who) && s' == Run(s, schedule)
  }

  /** What one side leaves alone. */
  lemma {:induction false} OneSideRuns<T>(s: State<T>, schedule: seq<(Agent, Action<T>)>, who: Agent)
    requires OnlyOf(schedule, who)
    ensures var s' := Run(s, schedule);
      && |s'.records| == |s.records|
      && (who.TheConsumer? ==> s'.producer == s.producer && s'.writeIndex == s.writeIndex && s'.enq == s.enq)
      && (who.TheProducer? ==> s'.consumer == s.consumer && s'.readIndex == s.readIndex && s'.deq == s.deq)
    decreases |schedule|
  {
    if |schedule| > 0 {
      OneSideRuns(s, schedule[..|schedule| - 1], who);
    }
  }

  class Ring<T(!new)> {
    var records: array<Record<T>>
    var readIndex: nat
    var writeIndex: nat
    /** The same in the state machine, with both sides and the history. */
    ghost var st: State<T>
    /** Every step since the ring was made, and what that was when the call at hand had
        taken its first. */
    ghost var log: seq<(Agent, Action<T>)>
    ghost var begun: seq<(Agent, Action<T>)>
    ghost const capacity: nat

    ghost predicate Traced()
      reads this
    {
      Inv(st) && capacity >= 1 && st == Run(Initial(capacity), log)
    }

    ghost predicate Valid()
      reads this, records
    {
      && Traced() && records.Length == capacity + 1 && records[..] == st.records
      && readIndex == st.readIndex && writeIndex == st.writeIndex
    }

    /** The theorems about all runs apply to the ring as it is. */
    lemma IsReachable()
      requires Valid()
      ensures Reachable(st)
    {
    }

    /** `who` began its call with the last step of `begun` and has only gone on since. */
    ghost predicate Going(who: Agent)
      reads this
    {
      && |begun| > 0 && begun <= log && begun[|begun| - 1].0 == who
      && forall i :: |begun| <= i < |log| && log[i].0 == who ==> log[i].1.Go?
    }

    constructor (capacity: nat)
      requires capacity >= 1
      ensures Valid() && this.capacity == capacity && st == Initial(capacity) && log == []
    {
      this.capacity := capacity;
      log, begun := [], [];
      records := new Record<T>[capacity + 1](_ => Raw);
      readIndex, writeIndex := 0, 0;
      st := Initial(capacity);
      new;
      InitialInv<T>(capacity);
    }

    /** The consumer runs for a while. The second clause follows (`OneSideRuns`). */
    method ConsumerRuns()
      requires Valid()
      modifies this`readIndex, this`st, this`log, records
      ensures Valid() && Ran(old(st), st, TheConsumer)
      ensures old(log) <= log && OnlyOf(log[|old(log)|..], TheConsumer)
      ensures |st.records| == |old(st).records| && st.producer == old(st).producer
      ensures st.writeIndex == old(st).writeIndex && st.enq == old(st).enq
    {
      assert OnlyOf<T>([], TheConsumer) && st == Run(st, []);
      OneSideRuns(st, [], TheConsumer);
    }

    method ProducerRuns()
      requires Valid()
      modifies this`writeIndex, this`st, this`log, records
      ensures Valid() && Ran(old(st), st, TheProducer)
      ensures old(log) <= log && OnlyOf(log[|old(log)|..], TheProducer)
      ensures |st.records| == |old(st).records| && st.consumer == old(st).consumer
      ensures st.readIndex == old(st).readIndex && st.deq == old(st).deq
    {
      assert OnlyOf<T>([], TheProducer) && st == Run(st, []);
      OneSideRuns(st, [], TheProducer);
    }

    ghost method Tick(who: Agent, a: Action<T>)
      requires Traced()
      modifies this`st, this`log
      ensures Traced() && st == Exec(old(st), who, a) && log == old(log) + [(who, a)]
    {
      if who.TheProducer? {
        ProducerStepInv(st, a);
      } else {
        ConsumerStepInv(st, a);
      }
      st := Exec(st, who, a);
      log := log + [(who, a)];
      assert log[..|log| - 1] == old(log);
    }

    /** The first step of a call. */
    ghost method Begin(who: Agent, start: Action<T>)
      requires Traced()
      modifies this`st, this`log, this`begun
      ensures Traced() && Going(who) && st == Exec(old(st), who, start) && begun == old(log) + [(who, start)]
    {
      hide Inv, Run, ProducerStep, ConsumerStep;
      begun := log + [(who, start)];
      Tick(who, start);
    }

    /** What the steps since `before` amount to, when the producer began a call there. */
    lemma ProducerRan(s: State<T>, before: seq<(Agent, Action<T>)>, start: Action<T>)
      requires Valid() && Going(TheProducer) && begun == before + [(TheProducer, start)]
      requires s == Run(Initial(capacity), before) && Inv(s) && s.producer.PDone? && ProducerStart(start)
      ensures CallRan(s, st, TheProducer, start)
      ensures st.producer == PDone(Enqueued(false)) || st.producer == PDone(Full(true)) ==>
        CallSaw(s, st, TheProducer, start, |st.records| - 1)
      ensures st.producer.PDone? && st.producer.result.ProducerGuess? ==>
        CallSaw(s, st, TheProducer, start, st.producer.result.size)
    {
      hide Inv, Run, SawSize;
      var schedule := log[|before|..];
      assert log == before + schedule;
      RunAppend(Initial(capacity), before, schedule);
      assert IsCall(schedule, TheProducer, start);
      ProducerCall(s, start, schedule);
    }

    lemma ConsumerRan(s: State<T>, before: seq<(Agent, Action<T>)>, start: Action<T>)
      requires Valid() && Going(TheConsumer) && begun == before + [(TheConsumer, start)]
      requires s == Run(Initial(capacity), before) && Inv(s) && s.consumer.CDone? && ConsumerStart(start)
      requires start.StartPop? ==> Size(s) > 0
      ensures CallRan(s, st, TheConsumer, start)
      ensures st.consumer == CDone(Dequeued(None)) || st.consumer == CDone(Empty(true)) ==>
        CallSaw(s, st, TheConsumer, start, 0)
      ensures st.consumer.CDone? && st.consumer.result.ConsumerGuess? ==>
        CallSaw(s, st, TheConsumer, start, st.consumer.result.size)
    {
      hide Inv, Run, SawSize;
      var schedule := log[|before|..];
      assert log == before + schedule;
      RunAppend(Initial(capacity), before, schedule);
      assert IsCall(schedule, TheConsumer, start);
      ConsumerCall(s, start, schedule);
    }

    /** The two loads of enqueue and the test for a free record. */
    method FindFree(v: T) returns (free: bool, currentWrite: nat, nextRecord: nat)
      requires Valid() && Going(TheProducer) && st.producer == PLoadWrite(v)
      modifies this`readIndex, this`st, this`log, records
      ensures Valid() && Going(TheProducer) && st.enq == old(st).enq && nextRecord == Next(currentWrite, records.Length)
      ensures st.producer == if free then PConstruct(v, currentWrite) else PDone(Enqueued(false))
    {
      hide Inv, ConsumerStep, Run;
      ConsumerRuns();
      currentWrite := writeIndex;
      Tick(TheProducer, Go);
      nextRecord := currentWrite + 1;
      if nextRecord == records.Length {
        nextRecord := 0;
      }
      ConsumerRuns();
      free := nextRecord != readIndex;
      Tick(TheProducer, Go);
    }

    /** Constructs the record and publishes it. */
    method PutIn(v: T, currentWrite: nat, nextRecord: nat)
      requires Valid() && Going(TheProducer) && st.producer == PConstruct(v, currentWrite)
      requires nextRecord == Next(currentWrite, records.Length)
      modifies this`readIndex, this`writeIndex, this`st, this`log, records
      ensures Valid() && Going(TheProducer) && st.producer == PDone(Enqueued(true)) && st.enq == old(st).enq + [v]
    {
      hide Inv, ConsumerStep, Run;
      ConsumerRuns();
      Inside(st);
      records[currentWrite] := Live(v);
      Tick(TheProducer, Go);
      assert records[..] == st.records;
      ConsumerRuns();
      writeIndex := nextRecord;
      Tick(TheProducer, Go);
    }

    /** enqueue: the value joins the queue exactly when the call says so, and a refusal
        saw size_ - 1 items. */
    method Enqueue(v: T) returns (ok: bool)
      requires Valid() && st.producer.PDone?
      modifies this`readIndex, this`writeIndex, this`st, this`log, this`begun, records
      ensures Valid() && st.producer == PDone(Enqueued(ok)) && CallRan(old(st), st, TheProducer, StartEnqueue(v))
      ensures st.enq == if ok then old(st).enq + [v] else old(st).enq
      ensures !ok ==> CallSaw(old(st), st, TheProducer, StartEnqueue(v), capacity)
    {
      hide Inv, ConsumerStep, Run, Ring.Going;
      Begin(TheProducer, StartEnqueue(v));
      var currentWrite, nextRecord;
      ok, currentWrite, nextRecord := FindFree(v);
      if ok {
        PutIn(v, currentWrite, nextRecord);
      }
      ProducerRan(old(st), old(log), StartEnqueue(v));
    }

    method FindRecord() returns (found: bool, currentRead: nat)
      requires Valid() && Going(TheConsumer) && st.consumer == CLoadRead
      modifies this`writeIndex, this`st, this`log, records
      ensures Valid() && Going(TheConsumer) && st.deq == old(st).deq
      ensures st.consumer == if found then CMove(currentRead) else CDone(Dequeued(None))
    {
      hide Inv, ProducerStep, Run;
      ProducerRuns();
      currentRead := readIndex;
      Tick(TheConsumer, Go);
      ProducerRuns();
      found := currentRead != writeIndex;
      Tick(TheConsumer, Go);
    }

    /** Moves the record out, destroys it and gives its place back. */
    method TakeOut(currentRead: nat) returns (x: T)
      requires Valid() && Going(TheConsumer) && st.consumer == CMove(currentRead)
      modifies this`readIndex, this`writeIndex, this`st, this`log, records
      ensures Valid() && Going(TheConsumer) && st.consumer == CDone(Dequeued(Some(x))) && st.deq == old(st).deq + [x]
    {
      hide Inv, ProducerStep, Run;
      ProducerRuns();
      Inside(st);
      x := records[currentRead].v;
      records[currentRead] := Moved;
      Tick(TheConsumer, Go);
      assert records[..] == st.records;
      ProducerRuns();
      records[currentRead] := Raw;
      Tick(TheConsumer, Go);
      assert records[..] == st.records;
      Advance(currentRead, x);
    }

    method Advance(currentRead: nat, x: T)
      requires Valid() && Going(TheConsumer) && st.consumer == CStore(currentRead, x)
      modifies this`readIndex, this`writeIndex, this`st, this`log, records
      ensures Valid() && Going(TheConsumer) && st.consumer == CDone(Dequeued(Some(x))) && st.deq == old(st).deq + [x]
    {
      hide Inv, ProducerStep, Run;
      ProducerRuns();
      readIndex := Next(currentRead, records.Length);
      Tick(TheConsumer, Go);
    }

    /** try_dequeue: the oldest value, or nothing after seeing no items. */
    method TryDequeue() returns (r: Option<T>)
      requires Valid() && st.consumer.CDone?
      modifies this`readIndex, this`writeIndex, this`st, this`log, this`begun, records
      ensures Valid() && st.consumer == CDone(Dequeued(r)) && CallRan(old(st), st, TheConsumer, StartDequeue)
      ensures st.deq == if r.Some? then old(st).deq + [r.value] else old(st).deq
      ensures r.Some? ==> st.deq <= st.enq
      ensures r.None? ==> CallSaw(old(st), st, TheConsumer, StartDequeue, 0)
    {
      hide Inv, ProducerStep, Run, Ring.Going;
      Begin(TheConsumer, StartDequeue);
      hide ConsumerStep;
      var found, currentRead := FindRecord();
      if !found {
        ConsumerRan(old(st), old(log), StartDequeue);
        return None;
      }
      var x := TakeOut(currentRead);
      InOrder(st);
      ConsumerRan(old(st), old(log), StartDequeue);
      return Some(x);
    }

    /** popFront, which may only be called on a queue that is not empty. */
    method PopFront() returns (ghost x: T)
      requires Valid() && st.consumer.CDone? && Size(st) > 0
      modifies this`readIndex, this`writeIndex, this`st, this`log, this`begun, records
      ensures Valid() && CallRan(old(st), st, TheConsumer, StartPop)
      ensures st.consumer == CDone(Dequeued(Some(x))) && st.deq == old(st).deq + [x] && st.deq <= st.enq
    {
      hide Inv, ProducerStep, Run;
      Begin(TheConsumer, StartPop);
      ProducerRuns();
      var currentRead := readIndex;
      Tick(TheConsumer, Go);
      x := TakeOut(currentRead);
      InOrder(st);
      ConsumerRan(old(st), old(log), StartPop);
    }

    /** isEmpty, called by the consumer: a false answer stays right, and a true one was
        right at an instant of the call. */
    method IsEmpty() returns (empty: bool)
      requires Valid() && st.consumer.CDone?
      modifies this`writeIndex, this`st, this`log, this`begun, records
      ensures Valid() && CallRan(old(st), st, TheConsumer, StartEmpty) && st.deq == old(st).deq
      ensures if empty then CallSaw(old(st), st, TheConsumer, StartEmpty, 0) else Size(st) > 0
    {
      hide Inv, ProducerStep, Run;
      Begin(TheConsumer, StartEmpty);
      ProducerRuns();
      var r := readIndex;
      Tick(TheConsumer, Go);
      ProducerRuns();
      empty := r == writeIndex;
      Tick(TheConsumer, Go);
      AnswersHold(st);
      ConsumerRan(old(st), old(log), StartEmpty);
    }

    /** isFull, called by the producer, in the same way. */
    method IsFull() returns (full: bool)
      requires Valid() && st.producer.PDone?
      modifies this`readIndex, this`st, this`log, this`begun, records
      ensures Valid() && CallRan(old(st), st, TheProducer, StartFull) && st.enq == old(st).enq
      ensures if full then CallSaw(old(st), st, TheProducer, StartFull, capacity) else Size(st) < capacity
    {
      hide Inv, ConsumerStep, Run;
      Begin(TheProducer, StartFull);
      ConsumerRuns();
      var nextRecord := Next(writeIndex, records.Length);
      Tick(TheProducer, Go);
      ConsumerRuns();
      full := nextRecord == readIndex;
      Tick(TheProducer, Go);
      AnswersHold(st);
      ProducerRan(old(st), old(log), StartFull);
    }

    method ProducerSizeLoads(writeFirst: bool) returns (w: nat, r: nat)
      requires Valid() && Going(TheProducer) && st.producer == if writeFirst then PSizeWrite else PSizeRead
      modifies this`readIndex, this`st, this`log, records
      ensures Valid() && Going(TheProducer) && st.producer == PDone(ProducerGuess(Distance(w, r, records.Length)))
    {
      hide Inv, ConsumerStep, Run;
      ConsumerRuns();
      w, r := writeIndex, readIndex;
      Tick(TheProducer, Go);
      ConsumerRuns();
      if writeFirst {
        r := readIndex;
      } else {
        w := writeIndex;
      }
      Tick(TheProducer, Go);
    }

    /** sizeGuess, called by the producer: the size at an instant of the call, and still
        not too low at its end. `writeFirst` is the order in which the compiler evaluates
        the two loads. */
    method ProducerSizeGuess(writeFirst: bool) returns (size: int)
      requires Valid() && st.producer.PDone?
      modifies this`readIndex, this`st, this`log, this`begun, records
      ensures Valid() && CallSaw(old(st), st, TheProducer, SizeStart(writeFirst), size)
      ensures Size(st) <= size <= capacity
    {
      hide Inv, ConsumerStep, Run, Ring.Going;
      Begin(TheProducer, SizeStart(writeFirst));
      hide ProducerStep;
      var w, r := ProducerSizeLoads(writeFirst);
      size := w as int - r as int;
      if size < 0 {
        size := size + records.Length;
      }
      AnswersHold(st);
      ProducerRan(old(st), old(log), SizeStart(writeFirst));
    }

    method ConsumerSizeLoads(writeFirst: bool) returns (w: nat, r: nat)
      requires Valid() && Going(TheConsumer) && st.consumer == if writeFirst then CSizeWrite else CSizeRead
      modifies this`writeIndex, this`st, this`log, records
      ensures Valid() && Going(TheConsumer) && st.consumer == CDone(ConsumerGuess(Distance(w, r, records.Length)))
    {
      hide Inv, ProducerStep, Run;
      ProducerRuns();
      w, r := writeIndex, readIndex;
      Tick(TheConsumer, Go);
      ProducerRuns();
      if writeFirst {
        r := readIndex;
      } else {
        w := writeIndex;
      }
      Tick(TheConsumer, Go);
    }

    /** sizeGuess, called by the consumer: the size at an instant of the call, and still
        not too high at its end. */
    method ConsumerSizeGuess(writeFirst: bool) returns (size: int)
      requires Valid() && st.consumer.CDone?
      modifies this`writeIndex, this`st, this`log, this`begun, records
      ensures Valid() && CallSaw(old(st), st, TheConsumer, SizeStart(writeFirst), size)
      ensures 0 <= size <= Size(st)
    {
      hide Inv, ProducerStep, Run, Ring.Going;
      Begin(TheConsumer, SizeStart(writeFirst));
      hide ConsumerStep;
      var w, r := ConsumerSizeLoads(writeFirst);
      size := w as int - r as int;
      if size < 0 {
        size := size + records.Length;
      }
      AnswersHold(st);
      ConsumerRan(old(st), old(log), SizeStart(writeFirst));
    }
  }

  function SizeStart<T>(writeFirst: bool): Action<T> {
    if writeFirst then StartSizeWriteFirst else StartSizeReadFirst
  }

  lemma Inside<T>(s: State<T>)
    requires Inv(s)
    ensures s.producer.PConstruct? ==> s.producer.cur < |s.records|
    ensures s.consumer.CMove? ==> s.consumer.cur < |s.records| && s.records[s.consumer.cur].Live?
  {
    assert s.consumer.CMove? ==> s.records[Slot(|s.deq|, |s.records|)] == Expected(s, |s.deq|);
  }

  lemma InOrder<T>(s: State<T>)
    requires Inv(s)
    ensures s.deq <= s.enq
  {
  }

  lemma AnswersHold<T>(s: State<T>)
    requires Inv(s)
    ensures s.producer.PDone? && s.producer.result.Full? && !s.producer.result.full ==> Size(s) + 1 < |s.records|
    ensures s.producer.PDone? && s.producer.result.ProducerGuess? ==> Size(s) <= s.producer.result.size < |s.records|
    ensures s.consumer.CDone? && s.consumer.result.Empty? && !s.consumer.result.empty ==> Size(s) > 0
    ensures s.consumer.CDone? && s.consumer.result.ConsumerGuess? ==> 0 <= s.consumer.result.size <= Size(s)
  {
  }
}
