/** mpscq_push and mpscq_pop of libs/intrusive_mpmc_link_queue.h:31-68 as written, on
    nodes linked in place, with everybody else running between any two accesses. Each
    is one call in a run of module MpscQueue from the state it was called in. */
module MpscProgram {
  import opened Common
  import opened MpscQueue

  ghost predicate NotOf(schedule: seq<(Agent, Action)>, who: Agent) {
    forall i :: 0 <= i < |schedule| ==> schedule[i].0 != who
  }

  /** `s'` is where everybody but `who` can bring `s`. */
  ghost predicate OthersRan(s: State, s': State, who: Agent) {
    exists schedule :: NotOf(schedule, who) && s' == Run(s, schedule)
  }

  /** What a step leaves of the state of another thread, `me`. */
  predicate Left(s: State, s': State, me: Agent) {
    && |s'.next| == |s.next| && |s'.producers| == |s.producers| && s.order <= s'.order
    && (me.TheConsumer? ==> s'.consumer == s.consumer && s'.tail == s.tail && s'.popped == s.popped)
    && (me.AProducer? && me.p < |s.producers| ==> s'.producers[me.p] == s.producers[me.p])
  }

  lemma ConsumerLeaves(s: State, a: Action, me: Agent)
    requires me.AProducer?
    ensures Left(s, ConsumerStep(s, a), me)
  {
  }

  lemma ProducerLeaves(s: State, p: nat, a: Action, me: Agent)
    requires p < |s.producers| && me != AProducer(p)
    ensures Left(s, ProducerStep(s, p, a), me)
  {
    hide Free;
  }

  lemma OtherStep(s: State, who: Agent, a: Action, me: Agent)
    requires who != me
    ensures Left(s, Exec(s, who, a), me)
  {
    hide Calm, ConsumerStep, ProducerStep;
    if who.TheConsumer? {
      ConsumerLeaves(s, a, me);
    } else if who.p < |s.producers| {
      ProducerLeaves(s, who.p, a, me);
    }
  }

  lemma {:induction false} OthersKeep(s: State, schedule: seq<(Agent, Action)>, me: Agent)
    requires NotOf(schedule, me)
    ensures Left(s, Run(s, schedule), me)
    decreases |schedule|
  {
    if |schedule| > 0 {
      hide Exec;
      OthersKeep(s, schedule[..|schedule| - 1], me);
      var last := schedule[|schedule| - 1];
      OtherStep(Run(s, schedule[..|schedule| - 1]), last.0, last.1, me);
    }
  }

  class Queue {
    /** next pointers of the nodes, the stub's first. */
    var next: array<Option<nat>>
    var head: nat
    var tail: nat
    ghost var st: State
    /** Every step since the queue was made, and what that was when the call at hand had
        taken its first. */
    ghost var log: seq<(Agent, Action)>
    ghost var begun: seq<(Agent, Action)>
    ghost const nodeCount: nat
    ghost const producerCount: nat

    ghost predicate Traced()
      reads this
    {
      Inv(st) && st == Run(Initial(nodeCount, producerCount), log)
    }

    ghost predicate Valid()
      reads this, next
    {
      Traced() && next[..] == st.next && head == st.head && tail == st.tail
    }

    /** The theorems about all runs apply to the queue as it is. */
    lemma IsReachable()
      requires Valid()
      ensures Reachable(st)
    {
    }

    /** `who` began its call with the last step of `begun` and has only gone on since. */
    ghost predicate Going(who: Agent)
      reads this
    {
      && |begun| > 0 && begun <= log && begun[|begun| - 1].0 == who
      && forall i :: |begun| <= i < |log| && log[i].0 == who ==> log[i].1.Go?
    }

    ghost predicate Pushing(p: nat, l: Producer)
      reads this
    {
      Going(AProducer(p)) && p < |st.producers| && st.producers[p] == l
    }

    ghost predicate Popping(c: Consumer)
      reads this
    {
      Going(TheConsumer) && st.consumer == c
    }

    /** mpscq_create. */
    constructor (nodeCount: nat, producerCount: nat)
      ensures Valid() && st == Initial(nodeCount, producerCount) && log == []
    {
      this.nodeCount, this.producerCount := nodeCount, producerCount;
      log, begun := [], [];
      next := new Option<nat>[nodeCount + 1](_ => None);
      head, tail := STUB, STUB;
      st := Initial(nodeCount, producerCount);
      new;
      InitialInv(nodeCount, producerCount);
    }

    /** Everybody else runs for a while. The last clause follows (`OthersKeep`). */
    method Others(me: Agent)
      requires Valid()
      modifies this`head, this`tail, this`st, this`log, next
      ensures Valid() && OthersRan(old(st), st, me) && Left(old(st), st, me)
      ensures old(log) <= log && NotOf(log[|old(log)|..], me)
    {
      assert NotOf([], me) && st == Run(st, []);
      OthersKeep(st, [], me);
    }

    ghost method Tick(who: Agent, a: Action)
      requires Traced()
      modifies this`st, this`log
      ensures Traced() && st == Exec(old(st), who, a) && log == old(log) + [(who, a)]
    {
      hide Inv, Exec;
      OneStepInv(st, who, a);
      st := Exec(st, who, a);
      log := log + [(who, a)];
      assert log[..|log| - 1] == old(log);
    }

    /** The first step of a call. */
    ghost method Begin(who: Agent, start: Action)
      requires Traced()
      modifies this`st, this`log, this`begun
      ensures Traced() && Going(who) && st == Exec(old(st), who, start) && begun == old(log) + [(who, start)]
    {
      hide Inv, Run, Exec;
      begun := log + [(who, start)];
      Tick(who, start);
    }

    /** What the steps since `before` amount to, when `who` began a call there. */
    lemma CallsRan(s: State, before: seq<(Agent, Action)>, who: Agent, start: Action)
      requires Valid() && Going(who) && begun == before + [(who, start)]
      requires s == Run(Initial(nodeCount, producerCount), before) && Inv(s)
      ensures CallRan(s, st, who, start)
      ensures who.TheConsumer? && start.StartPop? && s.consumer.Out? && st.consumer == Out(Nothing) ==>
        PopSawCalm(s, st)
    {
      hide Inv, Run, SawCalm;
      var schedule := log[|before|..];
      assert log == before + schedule;
      RunAppend(Initial(nodeCount, producerCount), before, schedule);
      assert IsCall(schedule, who, start);
      if who.TheConsumer? && start.StartPop? && s.consumer.Out? {
        PopCall(s, schedule);
      }
    }

    method ClearNext(p: nat, n: nat)
      requires Valid() && Pushing(p, Clear(n))
      modifies this`head, this`tail, this`st, this`log, next
      ensures Valid() && Pushing(p, Exchange(n)) && |st.producers| == |old(st).producers| && old(st).order <= st.order
    {
      hide Inv, Calm, ConsumerStep, Run;
      Others(AProducer(p));
      Nodes(st, p);
      next[n] := None;
      Tick(AProducer(p), Go);
      assert next[..] == st.next;
    }

    method ExchangeHead(p: nat, n: nat) returns (prev: nat, ghost ticket: nat)
      requires Valid() && Pushing(p, Exchange(n))
      modifies this`head, this`tail, this`st, this`log, next
      ensures Valid() && Pushing(p, Link(n, prev, ticket)) && |st.producers| == |old(st).producers|
      ensures |old(st).order| <= ticket < |st.order| && st.order[ticket] == n
    {
      hide Inv, Calm, ConsumerStep, Run;
      Others(AProducer(p));
      Nodes(st, p);
      ticket := |st.order|;
      prev := head;
      head := n;
      Tick(AProducer(p), Go);
    }

    method StoreLink(p: nat, n: nat, prev: nat)
      requires Valid() && Going(AProducer(p)) && p < |st.producers| && st.producers[p].Link? && st.producers[p].n == n
      requires st.producers[p].prev == prev
      modifies this`head, this`tail, this`st, this`log, next
      ensures Valid() && Pushing(p, Idle) && |st.producers| == |old(st).producers| && old(st).order <= st.order
    {
      hide Inv, Calm, ConsumerStep, Run;
      Others(AProducer(p));
      Nodes(st, p);
      next[prev] := Some(n);
      Tick(AProducer(p), Go);
      assert next[..] == st.next;
    }

    /** mpscq_push: the node is in the queue from the exchange on. */
    method Push(p: nat, n: nat) returns (ghost ticket: nat)
      requires Valid() && p < |st.producers| && st.producers[p] == Idle && Free(st, n)
      modifies this`head, this`tail, this`st, this`log, this`begun, next
      ensures Valid() && CallRan(old(st), st, AProducer(p), StartPush(n))
      ensures |st.producers| == |old(st).producers| && st.producers[p] == Idle
      ensures |old(st).order| <= ticket < |st.order| && st.order[ticket] == n
    {
      hide Inv, Calm, ConsumerStep, Run, Queue.Going;
      Pushable(st, p, n);
      Begin(AProducer(p), StartPush(n));
      hide Exec;
      ClearNext(p, n);
      var prev;
      prev, ticket := ExchangeHead(p, n);
      StoreLink(p, n, prev);
      CallsRan(old(st), old(log), AProducer(p), StartPush(n));
    }

    method NextAfterStub(t: nat) returns (r: Option<nat>)
      requires Valid() && Popping(LoadSecond(t))
      modifies this`head, this`tail, this`st, this`log, next
      ensures Valid() && Popping(if r.Some? then Out(Popped(r.value)) else LoadHead(t))
      ensures st.popped == if r.Some? then old(st).popped + [r.value] else old(st).popped
    {
      hide Inv, Calm, ProducerStep, Run;
      Others(TheConsumer);
      TailIsNode(st);
      var nx := next[t];
      Tick(TheConsumer, Go);
      if nx.Some? {
        tail := nx.value;
        return Some(t);
      }
      return None;
    }

    /** The first half of mpscq_pop: a linked successor of the tail, or of the stub's. */
    method PopLinked() returns (done: bool, r: Option<nat>, t: nat)
      requires Valid() && Popping(LoadNext)
      modifies this`head, this`tail, this`st, this`log, next
      ensures Valid() && Going(TheConsumer)
      ensures done ==> st.consumer == Out(if r.Some? then Popped(r.value) else Nothing)
      ensures done ==> st.popped == if r.Some? then old(st).popped + [r.value] else old(st).popped
      ensures !done ==> st.consumer == LoadHead(t) && st.popped == old(st).popped
    {
      hide Inv, Calm, ProducerStep, Run;
      Others(TheConsumer);
      TailIsNode(st);
      t := tail;
      var nx := next[t];
      Tick(TheConsumer, Go);
      if t == STUB {
        if nx.None? {
          return true, None, t;
        }
        tail := nx.value;
        t := nx.value;
        r := NextAfterStub(t);
        return r.Some?, r, t;
      }
      if nx.Some? {
        tail := nx.value;
        return true, Some(t), t;
      }
      return false, None, t;
    }

    /** The rest: the tail is the last node, so the stub is pushed behind it. */
    method PushStub(t: nat)
      requires Valid() && Popping(StubClear(t))
      modifies this`head, this`tail, this`st, this`log, next
      ensures Valid() && Popping(Reload(t)) && st.popped == old(st).popped && tail == old(tail)
    {
      hide Inv, Calm, ProducerStep, Run;
      Others(TheConsumer);
      TailIsNode(st);
      next[STUB] := None;
      Tick(TheConsumer, Go);
      assert next[..] == st.next;
      Others(TheConsumer);
      TailIsNode(st);
      var prev := head;
      head := STUB;
      Tick(TheConsumer, Go);
      LinkStub(t, prev);
    }

    method LinkStub(t: nat, prev: nat)
      requires Valid() && Going(TheConsumer) && st.consumer.StubLink? && st.consumer.t == t && st.consumer.prev == prev
      modifies this`head, this`tail, this`st, this`log, next
      ensures Valid() && Popping(Reload(t)) && st.popped == old(st).popped && tail == old(tail)
    {
      hide Inv, Calm, ProducerStep, Run;
      Others(TheConsumer);
      TailIsNode(st);
      next[prev] := Some(STUB);
      Tick(TheConsumer, Go);
      assert next[..] == st.next;
    }

    method LoadHeadIs(t: nat) returns (same: bool)
      requires Valid() && Popping(LoadHead(t))
      modifies this`head, this`tail, this`st, this`log, next
      ensures Valid() && Going(TheConsumer) && st.popped == old(st).popped
      ensures st.consumer == if same then StubClear(t) else Out(Nothing)
    {
      hide Inv, Calm, ProducerStep, Run;
      Others(TheConsumer);
      same := t == head;
      Tick(TheConsumer, Go);
    }

    method ReloadNext(t: nat) returns (r: Option<nat>)
      requires Valid() && Popping(Reload(t))
      modifies this`head, this`tail, this`st, this`log, next
      ensures Valid() && Popping(Out(if r.Some? then Popped(r.value) else Nothing))
      ensures st.popped == if r.Some? then old(st).popped + [r.value] else old(st).popped
    {
      hide Inv, Calm, ProducerStep, Run;
      Others(TheConsumer);
      TailIsNode(st);
      var nx := next[t];
      Tick(TheConsumer, Go);
      if nx.Some? {
        tail := nx.value;
        return Some(t);
      }
      return None;
    }

    /** mpscq_pop: the next node, or nothing after a calm moment. */
    method Pop() returns (r: Option<nat>)
      requires Valid() && st.consumer.Out?
      modifies this`head, this`tail, this`st, this`log, this`begun, next
      ensures Valid() && CallRan(old(st), st, TheConsumer, StartPop)
      ensures st.consumer == Out(if r.Some? then Popped(r.value) else Nothing)
      ensures st.popped == if r.Some? then old(st).popped + [r.value] else old(st).popped
      ensures r.None? ==> PopSawCalm(old(st), st)
    {
      hide Inv, Calm, ProducerStep, Run, Queue.Going;
      Begin(TheConsumer, StartPop);
      hide Exec;
      r := PopSteps();
      CallsRan(old(st), old(log), TheConsumer, StartPop);
    }

    method PopSteps() returns (r: Option<nat>)
      requires Valid() && Popping(LoadNext)
      modifies this`head, this`tail, this`st, this`log, next
      ensures Valid() && Popping(Out(if r.Some? then Popped(r.value) else Nothing))
      ensures st.popped == if r.Some? then old(st).popped + [r.value] else old(st).popped
    {
      hide Inv, Calm, Exec, Run, Queue.Going;
      var done, t;
      done, r, t := PopLinked();
      if done {
        return r;
      }
      var same := LoadHeadIs(t);
      if !same {
        return None;
      }
      PushStub(t);
      r := ReloadNext(t);
    }
  }

  lemma TailIsNode(s: State)
    requires Inv(s)
    ensures s.tail < |s.next| && STUB < |s.next| == |s.ticketOf|
    ensures s.consumer.LoadSecond? || s.consumer.Reload? ==> s.consumer.t == s.tail
    ensures s.consumer.StubLink? ==> s.consumer.prev < |s.next|
  {
  }

  lemma OneStepInv(s: State, who: Agent, a: Action)
    requires Inv(s)
    ensures Inv(Exec(s, who, a))
  {
    var one := [(who, a)];
    assert one[..|one| - 1] == [];
    assert Run(s, one) == Exec(s, who, a) by {
      assert Run(s, one[..|one| - 1]) == s;
    }
    RunInv(s, one);
  }

  lemma Pushable(s: State, p: nat, n: nat)
    requires Inv(s) && Free(s, n)
    ensures n < |s.next| == |s.holder|
  {
  }

  lemma Nodes(s: State, p: nat)
    requires Inv(s) && p < |s.producers|
    ensures |s.ticketOf| == |s.next|
    ensures s.producers[p] != Idle ==> s.producers[p].n < |s.next|
    ensures s.producers[p].Link? ==> s.producers[p].prev < |s.next|
  {
    assert ProducerOk(s, s.producers[p]);
  }
}
