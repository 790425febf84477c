/** enqueue, alloc_node and try_dequeue of libs/spscqueue.h:68-134 as written, on nodes
    linked in place, with the other side running between any two accesses. Each is
    one call in a run of module SpscLinkedQueue from the state it was called in. */
module SpscLinkedProgram {
  import opened Common
  import opened SpscLinkedQueue

  ghost predicate OnlyOf<T>(schedule: seq<(Agent, Action<T>)>, who: Agent) {
    forall i :: 0 <= i < |schedule| ==> schedule[i].0 == who
  }

  /** `s'` is where `who` alone can bring `s`. */
  ghost predicate Ran<T(!new)>(s: State<T>, s': State<T>, who: Agent) {
    exists schedule :: OnlyOf(schedule, who) && s' == Run(s, schedule)
  }

  /** What one side leaves alone. */
  predicate Left<T(==)>(s: State<T>, s': State<T>, who: Agent) {
    && (who.TheConsumer? ==> s'.producer == s.producer && s'.first == s.first && s'.tailCopy == s.tailCopy
                             && s'.head == s.head && s'.enq == s.enq && |s'.next| == |s.next|)
    && (who.TheProducer? ==> s'.consumer == s.consumer && s'.tail == s.tail && s'.deq == s.deq)
  }

  lemma {:induction false} OneSideRuns<T>(s: State<T>, schedule: seq<(Agent, Action<T>)>, who: Agent)
    requires OnlyOf(schedule, who)
    ensures Left(s, Run(s, schedule), who)
    decreases |schedule|
  {
    if |schedule| > 0 {
      OneSideRuns(s, schedule[..|schedule| - 1], who);
    }
  }

  class SpscQueue<T(!new)> {
    /** The nodes, by number: next_ and value_. */
    var next: seq<Option<nat>>
    var value: seq<Option<T>>
    var tail: nat
    var head: nat
    var first: nat
    var tailCopy: nat
    ghost var st: State<T>
    /** Every step since the queue was made, and what that was when the call at hand had
        taken its first. */
    ghost var log: seq<(Agent, Action<T>)>
    ghost var begun: seq<(Agent, Action<T>)>

    ghost predicate Traced()
      reads this
    {
      Inv(st) && st == Run(Initial(), log)
    }

    ghost predicate Valid()
      reads this
    {
      && Traced() && next == st.next && value == st.value
      && tail == st.tail && head == st.head && first == st.first && tailCopy == st.tailCopy
    }

    /** The theorems about all runs apply to the queue as it is. */
    lemma IsReachable()
      requires Valid()
      ensures Reachable(st)
    {
    }

    /** `who` began its call with the last step of `begun` and has only gone on since. */
    ghost predicate Going(who: Agent)
      reads this
    {
      && |begun| > 0 && begun <= log && begun[|begun| - 1].0 == who
      && forall i :: |begun| <= i < |log| && log[i].0 == who ==> log[i].1.Go?
    }

    constructor ()
      ensures Valid() && st == Initial() && log == []
    {
      log, begun := [], [];
      next, value := [None], [None];
      tail, head, first, tailCopy := 0, 0, 0, 0;
      st := Initial();
      new;
      InitialInv<T>();
    }

    /** The other side runs for a while. The last clause follows (`OneSideRuns`). */
    method Runs(who: Agent)
      requires Valid()
      modifies this`next, this`value, this`tail, this`head, this`first, this`tailCopy, this`st, this`log
      ensures Valid() && Ran(old(st), st, who) && Left(old(st), st, who)
      ensures old(log) <= log && OnlyOf(log[|old(log)|..], who)
    {
      assert OnlyOf<T>([], who) && st == Run(st, []);
      OneSideRuns(st, [], who);
    }

    ghost method Tick(who: Agent, a: Action<T>)
      requires Traced()
      modifies this`st, this`log
      ensures Traced() && st == Exec(old(st), who, a) && log == old(log) + [(who, a)]
    {
      ExecInv(st, who, a);
      st := Exec(st, who, a);
      log := log + [(who, a)];
      assert log[..|log| - 1] == old(log);
    }

    /** The first step of a call. */
    ghost method Begin(who: Agent, start: Action<T>)
      requires Traced()
      modifies this`st, this`log, this`begun
      ensures Traced() && Going(who) && st == Exec(old(st), who, start) && begun == old(log) + [(who, start)]
    {
      hide Inv, Run, Exec;
      begun := log + [(who, start)];
      Tick(who, start);
    }

    /** What the steps since `before` amount to, when `who` began a call there. */
    lemma CallsRan(s: State<T>, before: seq<(Agent, Action<T>)>, who: Agent, start: Action<T>)
      requires Valid() && Going(who) && begun == before + [(who, start)] && s == Run(Initial(), before) && Inv(s)
      ensures CallRan(s, st, who, start)
      ensures who.TheConsumer? && start.StartDequeue? && s.consumer.CIdle? && st.consumer == CIdle(Empty) ==>
        DequeueSawEmpty(s, st)
    {
      hide Inv, Run, SawEmpty;
      var schedule := log[|before|..];
      assert log == before + schedule;
      RunAppend(Initial(), before, schedule);
      assert IsCall(schedule, who, start);
      if who.TheConsumer? && start.StartDequeue? && s.consumer.CIdle? {
        DequeueCall(s, schedule);
      }
    }

    /** alloc_node, as steps of an enqueue: a cached node behind the tail, or a new one,
        and none that the consumer can still reach. */
    method AllocNode(v: T) returns (n: nat)
      requires Valid() && Going(TheProducer) && st.producer == PAlloc(v)
      modifies this`next, this`value, this`tail, this`head, this`first, this`tailCopy, this`st, this`log
      ensures Valid() && Going(TheProducer) && old(log) <= log && st.producer == PClear(v, n) && st.enq == old(st).enq
      ensures forall i :: st.tailAt <= i < |st.order| ==> st.order[i] != n
    {
      hide Inv, ConsumerStep, Run;
      Runs(TheConsumer);
      Cached(st);
      AllocTakes(st, Go);
      if first == tailCopy {
        tailCopy := tail;
      }
      if first != tailCopy {
        n := first;
        first := next[first].value;
      } else {
        n := |next|;
        next, value := next + [None], value + [None];
      }
      Tick(TheProducer, Go);
    }

    method Fill(v: T, n: nat)
      requires Valid() && Going(TheProducer) && st.producer == PClear(v, n)
      modifies this`next, this`value, this`tail, this`head, this`first, this`tailCopy, this`st, this`log
      ensures Valid() && Going(TheProducer) && st.producer == PLink(v, n) && st.enq == old(st).enq
    {
      hide Inv, ConsumerStep, Run;
      Runs(TheConsumer);
      Nodes(st);
      next := next[n := None];
      Tick(TheProducer, Go);
      Runs(TheConsumer);
      Nodes(st);
      value := value[n := Some(v)];
      Tick(TheProducer, Go);
    }

    method LinkNode(v: T, n: nat)
      requires Valid() && Going(TheProducer) && st.producer == PLink(v, n)
      modifies this`next, this`value, this`tail, this`head, this`first, this`tailCopy, this`st, this`log
      ensures Valid() && Going(TheProducer) && st.producer == PIdle && st.enq == old(st).enq + [v]
    {
      hide Inv, ConsumerStep, Run;
      Runs(TheConsumer);
      Nodes(st);
      next := next[head := Some(n)];
      Tick(TheProducer, Go);
      Runs(TheConsumer);
      head := n;
      Tick(TheProducer, Go);
    }

    method Enqueue(v: T)
      requires Valid() && st.producer.PIdle?
      modifies this`next, this`value, this`tail, this`head, this`first, this`tailCopy, this`st, this`log, this`begun
      ensures Valid() && CallRan(old(st), st, TheProducer, StartEnqueue(v))
      ensures st.producer.PIdle? && st.enq == old(st).enq + [v]
    {
      hide Inv, ConsumerStep, Run, SpscQueue.Going;
      Begin(TheProducer, StartEnqueue(v));
      hide ProducerStep;
      var n := AllocNode(v);
      Fill(v, n);
      LinkNode(v, n);
      CallsRan(old(st), old(log), TheProducer, StartEnqueue(v));
    }

    method LoadNext() returns (some: bool)
      requires Valid() && Going(TheConsumer) && st.consumer == CLoad
      modifies this`next, this`value, this`tail, this`head, this`first, this`tailCopy, this`st, this`log
      ensures Valid() && Going(TheConsumer) && st.deq == old(st).deq
      ensures if some then st.consumer.CRead? else st.consumer == CIdle(Empty)
    {
      hide Inv, ProducerStep, Run;
      Runs(TheProducer);
      Nodes(st);
      some := next[tail].Some?;
      Tick(TheConsumer, Go);
    }

    /** try_dequeue: the oldest value, or nothing after seeing no items. */
    method TryDequeue() returns (r: Option<T>)
      requires Valid() && st.consumer.CIdle?
      modifies this`next, this`value, this`tail, this`head, this`first, this`tailCopy, this`st, this`log, this`begun
      ensures Valid() && CallRan(old(st), st, TheConsumer, StartDequeue)
      ensures st.consumer == CIdle(if r.Some? then Got(r.value) else Empty)
      ensures st.deq == if r.Some? then old(st).deq + [r.value] else old(st).deq
      ensures st.deq <= st.enq
      ensures r.None? ==> DequeueSawEmpty(old(st), st)
    {
      hide Inv, ProducerStep, Run, SpscQueue.Going;
      Begin(TheConsumer, StartDequeue);
      hide ConsumerStep;
      var some := LoadNext();
      if some {
        var x := TakeValue();
        r := Some(x);
      } else {
        r := None;
      }
      Nodes(st);
      CallsRan(old(st), old(log), TheConsumer, StartDequeue);
    }

    method TakeValue() returns (x: T)
      requires Valid() && Going(TheConsumer) && st.consumer.CRead?
      modifies this`next, this`value, this`tail, this`head, this`first, this`tailCopy, this`st, this`log
      ensures Valid() && Going(TheConsumer) && st.consumer == CIdle(Got(x)) && st.deq == old(st).deq + [x]
    {
      hide Inv, ProducerStep, Run;
      Runs(TheProducer);
      Nodes(st);
      x := value[next[tail].value].value;
      Tick(TheConsumer, Go);
      Runs(TheProducer);
      Nodes(st);
      tail := next[tail].value;
      Tick(TheConsumer, Go);
    }
  }

  lemma Cached<T>(s: State<T>)
    requires Inv(s)
    ensures s.first < |s.next| && (s.first != s.tail ==> s.next[s.first].Some?)
    ensures s.first != s.tailCopy ==> s.next[s.first].Some?
  {
    assert s.firstAt < s.tailAt ==> s.next[s.order[s.firstAt]] == Some(s.order[s.firstAt + 1]);
  }

  lemma Nodes<T>(s: State<T>)
    requires Inv(s)
    ensures |s.value| == |s.next| == |s.posOf| && s.tail < |s.next| && s.head < |s.next| && s.deq <= s.enq
    ensures Holding(s.producer) ==> s.producer.n < |s.next|
    ensures s.consumer.CRead? || s.consumer.CStore? ==>
      s.next[s.tail] == Some(s.consumer.m) && s.consumer.m < |s.value| && s.value[s.consumer.m].Some?
  {
    assert s.tailAt + 1 < |s.order| ==> s.next[s.order[s.tailAt]] == Some(s.order[s.tailAt + 1]);
  }
}
