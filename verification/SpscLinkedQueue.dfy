/** The unbounded single-producer/single-consumer queue that recycles its nodes
    (libs/spscqueue.h): one transition per access that both sides can see. */
module SpscLinkedQueue {
  import opened Common

  /** enqueue() with alloc_node() inlined. `n` is the node it works on. */
  datatype Producer<T> =
    | PIdle
    | PAlloc(v: T)
    | PClear(v: T, n: nat)
    | PValue(v: T, n: nat)
    | PLink(v: T, n: nat)
    | PHead(n: nat)

  datatype Result<T> = NoCall | Empty | Got(x: T)

  datatype Consumer<T> =
    | CIdle(result: Result<T>)
    | CLoad
    | CRead(m: nat)
    | CStore(m: nat, x: T)

  /** Nodes are numbered in the order of their allocation. `order` lists them in
      the order in which they were linked, the initial node first, a recycled
      node again each time; `firstAt`, `copyAt` and `tailAt` are the positions of
      first_, tail_copy_ and tail_ in it, and `posOf` each node's latest
      position. `enq` and `deq` are the values linked and removed. */
  datatype State<T> = State(
    next: seq<Option<nat>>,
    value: seq<Option<T>>,
    first: nat,
    tailCopy: nat,
    tail: nat,
    head: nat,
    producer: Producer<T>,
    consumer: Consumer<T>,
    order: seq<nat>,
    firstAt: nat,
    copyAt: nat,
    tailAt: nat,
    posOf: seq<nat>,
    enq: seq<T>,
    deq: seq<T>)

  datatype Action<T> = StartEnqueue(v: T) | StartDequeue | Go

  datatype Agent = TheProducer | TheConsumer

  function Initial<T>(): State<T> {
    State([None], [None], 0, 0, 0, 0, PIdle, CIdle(NoCall), [0], 0, 0, 0, [0], [], [])
  }

  /** The number of items in the queue. */
  function Size<T>(s: State<T>): int { |s.enq| - |s.deq| }

  /** Take the oldest cached node. */
  function TakeFirst<T>(s: State<T>, v: T): State<T> {
    if s.first < |s.next| && s.next[s.first].Some? then
      s.(first := s.next[s.first].value, firstAt := s.firstAt + 1, producer := PClear(v, s.first))
    else s
  }

  /** Allocate a node. */
  function NewNode<T>(s: State<T>, v: T): State<T> {
    s.(next := s.next + [None], value := s.value + [None], posOf := s.posOf + [0],
       producer := PClear(v, |s.next|))
  }

  function ProducerStep<T>(s: State<T>, a: Action<T>): State<T> {
    match s.producer
    case PIdle => if a.StartEnqueue? then s.(producer := PAlloc(a.v)) else s
    case PAlloc(v) =>
      if s.first != s.tailCopy then TakeFirst(s, v)
      else
        var s1 := s.(tailCopy := s.tail, copyAt := s.tailAt);
        if s1.first != s1.tailCopy then TakeFirst(s1, v) else NewNode(s1, v)
    case PClear(v, n) =>
      if n < |s.next| then s.(next := s.next[n := None], producer := PValue(v, n)) else s
    case PValue(v, n) =>
      if n < |s.value| then s.(value := s.value[n := Some(v)], producer := PLink(v, n)) else s
    case PLink(v, n) =>
      if s.head < |s.next| && n < |s.posOf| then
        s.(next := s.next[s.head := Some(n)], order := s.order + [n], posOf := s.posOf[n := |s.order|],
           enq := s.enq + [v], producer := PHead(n))
      else s
    case PHead(n) => s.(head := n, producer := PIdle)
  }

  function ConsumerStep<T>(s: State<T>, a: Action<T>): State<T> {
    match s.consumer
    case CIdle(_) => if a.StartDequeue? then s.(consumer := CLoad) else s
    case CLoad =>
      if s.tail >= |s.next| then s
      else if s.next[s.tail].None? then s.(consumer := CIdle(Empty))
      else s.(consumer := CRead(s.next[s.tail].value))
    case CRead(m) =>
      if m < |s.value| && s.value[m].Some? then s.(consumer := CStore(m, s.value[m].value)) else s
    case CStore(_, x) =>
      if s.tail < |s.next| && s.next[s.tail].Some? then
        s.(tail := s.next[s.tail].value, tailAt := s.tailAt + 1, deq := s.deq + [x], consumer := CIdle(Got(x)))
      else s
  }

  function Exec<T>(s: State<T>, who: Agent, a: Action<T>): State<T> {
    if who.TheProducer? then ProducerStep(s, a) else ConsumerStep(s, a)
  }

  function Run<T>(s: State<T>, schedule: seq<(Agent, Action<T>)>): State<T>
    decreases |schedule|
  {
    if |schedule| == 0 then s
    else
      var (who, a) := schedule[|schedule| - 1];
      Exec(Run(s, schedule[..|schedule| - 1]), who, a)
  }

  // ----- The invariant -----

  /** The producer has a node that is not on the chain. */
  predicate Holding<T>(p: Producer<T>) { p.PClear? || p.PValue? || p.PLink? }

  ghost predicate Shape<T>(s: State<T>) {
    && |s.next| == |s.value| == |s.posOf|
    && s.firstAt <= s.copyAt <= s.tailAt < |s.order|
    && s.first == s.order[s.firstAt] && s.tailCopy == s.order[s.copyAt] && s.tail == s.order[s.tailAt]
    && |s.enq| == |s.order| - 1 && s.deq == s.enq[..s.tailAt]
    && (if s.producer.PHead? then
          && s.tailAt <= |s.order| - 1 && |s.order| >= 2 && s.firstAt <= |s.order| - 2
          && s.head == s.order[|s.order| - 2]
        else s.head == s.order[|s.order| - 1])
    && |s.next| == |s.order| - s.firstAt + (if Holding(s.producer) then 1 else 0)
  }

  /** From first_ on, the chain runs through distinct nodes to a null link. */
  ghost predicate ChainOk(next: seq<Option<nat>>, order: seq<nat>, firstAt: nat, posOf: seq<nat>) {
    && firstAt < |order| && |next| == |posOf|
    && (forall i :: firstAt <= i < |order| ==> order[i] < |next| && posOf[order[i]] == i)
    && (forall i: nat :: firstAt <= i && i + 1 < |order| ==> next[order[i]] == Some(order[i + 1]))
    && next[order[|order| - 1]] == None
  }

  predicate OnChain(order: seq<nat>, firstAt: nat, posOf: seq<nat>, n: nat) {
    n < |posOf| && firstAt <= posOf[n] < |order| && order[posOf[n]] == n
  }

  function Held<T>(p: Producer<T>): Option<nat> {
    if Holding(p) then Some(p.n) else None
  }

  /** Every allocated node is either on the chain or in the producer's hand. */
  ghost predicate NodesOk(order: seq<nat>, firstAt: nat, posOf: seq<nat>, held: Option<nat>) {
    && (held.Some? ==> held.value < |posOf|)
    && (forall n: nat :: n < |posOf| ==> (OnChain(order, firstAt, posOf, n) <==> held != Some(n)))
  }

  /** The nodes after the tail hold the items, oldest first. */
  ghost predicate ValuesOk<T>(value: seq<Option<T>>, order: seq<nat>, tailAt: nat, enq: seq<T>) {
    && |enq| == |order| - 1
    && (forall i: nat :: tailAt < i < |order| ==> order[i] < |value| && value[order[i]] == Some(enq[i - 1]))
  }

  ghost predicate SidesOk<T>(s: State<T>)
    requires Shape(s)
  {
    && (Holding(s.producer) ==> s.producer.n < |s.next|)
    && (s.producer.PValue? || s.producer.PLink? ==> s.next[s.producer.n] == None)
    && (s.producer.PLink? ==> s.value[s.producer.n] == Some(s.producer.v))
    && (s.producer.PHead? ==> s.producer.n == s.order[|s.order| - 1])
    && (s.consumer.CRead? ==> s.tailAt + 1 < |s.order| && s.consumer.m == s.order[s.tailAt + 1])
    && (s.consumer.CStore? ==>
          s.tailAt + 1 < |s.order| && s.consumer.m == s.order[s.tailAt + 1] && s.consumer.x == s.enq[s.tailAt])
    && (s.consumer.CIdle? && s.consumer.result.Got? ==>
          |s.deq| > 0 && s.consumer.result.x == s.deq[|s.deq| - 1])
  }

  ghost predicate Inv<T>(s: State<T>) {
    && Shape(s)
    && ChainOk(s.next, s.order, s.firstAt, s.posOf)
    && NodesOk(s.order, s.firstAt, s.posOf, Held(s.producer))
    && ValuesOk(s.value, s.order, s.tailAt, s.enq)
    && SidesOk(s)
  }

  // ----- The chain under each kind of step -----

  lemma OffChain(next: seq<Option<nat>>, order: seq<nat>, firstAt: nat, posOf: seq<nat>, n: nat)
    requires ChainOk(next, order, firstAt, posOf) && !OnChain(order, firstAt, posOf, n)
    ensures forall i :: firstAt <= i < |order| ==> order[i] != n
  {
  }

  /** A store to a node off the chain. */
  lemma StoreOffChain(next: seq<Option<nat>>, order: seq<nat>, firstAt: nat, posOf: seq<nat>, n: nat, x: Option<nat>)
    requires ChainOk(next, order, firstAt, posOf) && n < |next| && !OnChain(order, firstAt, posOf, n)
    ensures ChainOk(next[n := x], order, firstAt, posOf)
  {
    OffChain(next, order, firstAt, posOf, n);
  }

  /** Linking a node behind the last one. */
  lemma LinkChain(next: seq<Option<nat>>, order: seq<nat>, firstAt: nat, posOf: seq<nat>, n: nat)
    requires ChainOk(next, order, firstAt, posOf) && n < |next| && next[n] == None
    requires NodesOk(order, firstAt, posOf, Some(n))
    ensures ChainOk(next[order[|order| - 1] := Some(n)], order + [n], firstAt, posOf[n := |order|])
    ensures NodesOk(order + [n], firstAt, posOf[n := |order|], None)
  {
    OffChain(next, order, firstAt, posOf, n);
    assert posOf[order[|order| - 1]] == |order| - 1;
    var longer, posNow := order + [n], posOf[n := |order|];
    forall m: nat | m < |posOf|
      ensures OnChain(longer, firstAt, posNow, m)
    {
      assert m != n ==> OnChain(order, firstAt, posOf, m);
    }
  }

  /** Taking the first node off the chain. */
  lemma TakeChain(next: seq<Option<nat>>, order: seq<nat>, firstAt: nat, posOf: seq<nat>)
    requires ChainOk(next, order, firstAt, posOf) && NodesOk(order, firstAt, posOf, None) && firstAt + 1 < |order|
    ensures next[order[firstAt]] == Some(order[firstAt + 1])
    ensures ChainOk(next, order, firstAt + 1, posOf)
    ensures NodesOk(order, firstAt + 1, posOf, Some(order[firstAt]))
  {
    assert posOf[order[firstAt]] == firstAt;
    var second := firstAt + 1;
    forall m: nat | m < |posOf|
      ensures OnChain(order, second, posOf, m) <==> m != order[firstAt]
    {
      assert OnChain(order, firstAt, posOf, m);
    }
  }

  /** Allocating a node. */
  lemma GrowChain(next: seq<Option<nat>>, order: seq<nat>, firstAt: nat, posOf: seq<nat>)
    requires ChainOk(next, order, firstAt, posOf) && NodesOk(order, firstAt, posOf, None)
    ensures ChainOk(next + [None], order, firstAt, posOf + [0])
    ensures NodesOk(order, firstAt, posOf + [0], Some(|next|))
  {
    forall m: nat | m < |posOf| + 1
      ensures OnChain(order, firstAt, posOf + [0], m) <==> m != |next|
    {
      assert m < |posOf| ==> OnChain(order, firstAt, posOf, m);
    }
  }

  // ----- Every step keeps the invariant -----

  lemma TakeFirstInv<T>(s: State<T>, v: T)
    requires Inv(s) && s.producer.PAlloc? && s.first != s.tailCopy
    ensures Inv(TakeFirst(s, v)) && TakeFirst(s, v).producer == PClear(v, s.first)
  {
    hide ChainOk, NodesOk, ValuesOk;
    assert s.firstAt < s.copyAt;
    TakeChain(s.next, s.order, s.firstAt, s.posOf);
    FirstIsNode(s);
  }

  lemma FirstIsNode<T>(s: State<T>)
    requires Inv(s)
    ensures forall i :: s.firstAt <= i < |s.order| ==> s.order[i] < |s.next|
  {
  }

  lemma NewNodeInv<T>(s: State<T>, v: T)
    requires Inv(s) && s.producer.PAlloc?
    ensures Inv(NewNode(s, v))
  {
    hide ChainOk, NodesOk;
    GrowChain(s.next, s.order, s.firstAt, s.posOf);
  }

  lemma HeldIsOffChain<T>(s: State<T>)
    requires Inv(s) && Holding(s.producer)
    ensures s.producer.n < |s.next| && !OnChain(s.order, s.firstAt, s.posOf, s.producer.n)
    ensures forall i :: s.firstAt <= i < |s.order| ==> s.order[i] != s.producer.n
  {
    OffChain(s.next, s.order, s.firstAt, s.posOf, s.producer.n);
  }

  /** Stores to the node in the producer's hand do not touch the chain. */
  lemma HeldNodeInv<T>(s: State<T>, a: Action<T>)
    requires Inv(s) && (s.producer.PClear? || s.producer.PValue?)
    ensures Inv(ProducerStep(s, a))
  {
    hide ChainOk, NodesOk;
    HeldIsOffChain(s);
    StoreOffChain(s.next, s.order, s.firstAt, s.posOf, s.producer.n, None);
  }

  lemma LinkInv<T>(s: State<T>, a: Action<T>)
    requires Inv(s) && s.producer.PLink?
    ensures Inv(ProducerStep(s, a))
  {
    hide ChainOk, NodesOk;
    HeldIsOffChain(s);
    FirstIsNode(s);
    LinkChain(s.next, s.order, s.firstAt, s.posOf, s.producer.n);
  }

  lemma AllocInv<T>(s: State<T>, a: Action<T>)
    requires Inv(s) && s.producer.PAlloc?
    ensures Inv(ProducerStep(s, a))
  {
    hide ChainOk, NodesOk, ValuesOk, TakeFirst, NewNode;
    var v := s.producer.v;
    if s.first != s.tailCopy {
      TakeFirstInv(s, v);
    } else {
      var s1 := s.(tailCopy := s.tail, copyAt := s.tailAt);
      assert Inv(s1);
      if s1.first != s1.tailCopy {
        TakeFirstInv(s1, v);
      } else {
        NewNodeInv(s1, v);
      }
    }
  }

  lemma ProducerStepInv<T>(s: State<T>, a: Action<T>)
    requires Inv(s)
    ensures Inv(ProducerStep(s, a))
  {
    hide ChainOk, NodesOk, ValuesOk;
    match s.producer
    case PIdle =>
    case PAlloc(v) => AllocInv(s, a);
    case PClear(_, _) => HeldNodeInv(s, a);
    case PValue(_, _) => HeldNodeInv(s, a);
    case PLink(_, _) => LinkInv(s, a);
    case PHead(_) =>
  }

  /** What the consumer finds behind the tail. */
  lemma BehindTail<T>(s: State<T>)
    requires Inv(s)
    ensures s.tail < |s.next| && (s.next[s.tail].None? <==> s.tailAt + 1 == |s.order|)
    ensures s.tailAt + 1 < |s.order| ==>
      && s.next[s.tail] == Some(s.order[s.tailAt + 1]) && s.order[s.tailAt + 1] < |s.value|
      && s.value[s.order[s.tailAt + 1]] == Some(s.enq[s.tailAt])
      && ValuesOk(s.value, s.order, s.tailAt + 1, s.enq)
  {
    if s.tailAt + 1 < |s.order| {
      assert s.next[s.order[s.tailAt]] == Some(s.order[s.tailAt + 1]);
    }
  }

  lemma RemoveInv<T>(s: State<T>, a: Action<T>)
    requires Inv(s) && s.consumer.CStore?
    ensures Inv(ConsumerStep(s, a))
  {
    BehindTail(s);
    hide ChainOk, NodesOk, ValuesOk;
  }

  lemma ConsumerStepInv<T>(s: State<T>, a: Action<T>)
    requires Inv(s)
    ensures Inv(ConsumerStep(s, a))
  {
    hide ChainOk, NodesOk, ValuesOk;
    BehindTail(s);
    if s.consumer.CStore? {
      RemoveInv(s, a);
    }
  }

  lemma InitialInv<T>()
    ensures Inv(Initial<T>())
  {
  }

  lemma ExecInv<T>(s: State<T>, who: Agent, a: Action<T>)
    requires Inv(s)
    ensures Inv(Exec(s, who, a))
  {
    hide Inv, ProducerStep, ConsumerStep;
    ProducerStepInv(s, a);
    ConsumerStepInv(s, a);
  }

  lemma {:induction false} RunInv<T>(s: State<T>, schedule: seq<(Agent, Action<T>)>)
    requires Inv(s)
    ensures Inv(Run(s, schedule))
    decreases |schedule|
  {
    hide Inv, Exec;
    if |schedule| > 0 {
      RunInv(s, schedule[..|schedule| - 1]);
      var (who, a) := schedule[|schedule| - 1];
      ExecInv(Run(s, schedule[..|schedule| - 1]), who, a);
    }
  }

  ghost predicate Reachable<T(!new)>(s: State<T>) {
    exists schedule: seq<(Agent, Action<T>)> :: s == Run(Initial(), schedule)
  }

  lemma ReachableInv<T(!new)>(s: State<T>)
    requires Reachable(s)
    ensures Inv(s)
  {
    hide Inv, Exec;
    var schedule: seq<(Agent, Action<T>)> :| s == Run(Initial(), schedule);
    InitialInv<T>();
    RunInv(Initial(), schedule);
  }

  // ----- What every run guarantees -----

  /** first_, tail_copy_, tail_ and head_ lie in that order on one chain of
      distinct nodes, linked one to the next and ended by a null link; with no
      enqueue in progress the chain holds every node ever allocated. */
  lemma PointersInOrder<T(!new)>(s: State<T>)
    requires Reachable(s)
    ensures s.firstAt <= s.copyAt <= s.tailAt < |s.order|
    ensures s.first == s.order[s.firstAt] && s.tailCopy == s.order[s.copyAt] && s.tail == s.order[s.tailAt]
    ensures s.producer.PIdle? ==> s.head == s.order[|s.order| - 1]
    ensures forall i :: s.firstAt <= i < |s.order| ==> s.order[i] < |s.next|
    ensures forall i, j :: s.firstAt <= i < j < |s.order| ==> s.order[i] != s.order[j]
    ensures forall i: nat :: s.firstAt <= i && i + 1 < |s.order| ==> s.next[s.order[i]] == Some(s.order[i + 1])
    ensures s.next[s.order[|s.order| - 1]] == None
    ensures s.producer.PIdle? ==> forall n: nat :: n < |s.next| ==> InChain(s.order, s.firstAt, n)
  {
    hide Inv;
    ReachableInv(s);
    PointersInv(s);
  }

  lemma PointersInv<T>(s: State<T>)
    requires Inv(s)
    ensures s.firstAt <= s.copyAt <= s.tailAt < |s.order|
    ensures s.first == s.order[s.firstAt] && s.tailCopy == s.order[s.copyAt] && s.tail == s.order[s.tailAt]
    ensures s.producer.PIdle? ==> s.head == s.order[|s.order| - 1]
    ensures forall i :: s.firstAt <= i < |s.order| ==> s.order[i] < |s.next|
    ensures forall i, j :: s.firstAt <= i < j < |s.order| ==> s.order[i] != s.order[j]
    ensures forall i: nat :: s.firstAt <= i && i + 1 < |s.order| ==> s.next[s.order[i]] == Some(s.order[i + 1])
    ensures s.next[s.order[|s.order| - 1]] == None
    ensures s.producer.PIdle? ==> forall n: nat :: n < |s.next| ==> InChain(s.order, s.firstAt, n)
  {
    hide ValuesOk, SidesOk;
    if s.producer.PIdle? {
      forall n: nat | n < |s.next|
        ensures InChain(s.order, s.firstAt, n)
      {
        assert OnChain(s.order, s.firstAt, s.posOf, n);
      }
    }
  }

  ghost predicate InChain(order: seq<nat>, firstAt: nat, n: nat) {
    exists i :: firstAt <= i < |order| && order[i] == n
  }

  /** First in, first out: what was removed is a prefix of what was linked, the
      node behind the tail holds the next item, and each dequeue returned the
      item it removed. */
  lemma QueueIsFifo<T(!new)>(s: State<T>)
    requires Reachable(s)
    ensures s.deq <= s.enq
    ensures s.consumer.CIdle? && s.consumer.result.Got? ==> |s.deq| > 0 && s.consumer.result.x == s.deq[|s.deq| - 1]
    ensures forall i: nat :: s.tailAt < i < |s.order| ==>
      s.order[i] < |s.value| && i - 1 < |s.enq| && s.value[s.order[i]] == Some(s.enq[i - 1])
    ensures s.tailAt == |s.deq| && |s.order| == |s.enq| + 1
  {
    ReachableInv(s);
  }

  /** try_dequeue() finds nothing exactly when the queue is empty at its load. */
  lemma EmptyIsExact<T(!new)>(s: State<T>, a: Action<T>)
    requires Reachable(s) && s.consumer.CLoad?
    ensures ConsumerStep(s, a).consumer == CIdle(Empty) <==> Size(s) == 0
  {
    ReachableInv(s);
    BehindTail(s);
  }

  // ----- Whole calls -----

  /** A schedule that begins with `who` starting a call and in which `who` starts no
      other. */
  ghost predicate IsCall<T(!new)>(schedule: seq<(Agent, Action<T>)>, who: Agent, start: Action<T>) {
    && |schedule| > 0 && schedule[0] == (who, start)
    && forall i :: 0 < i < |schedule| && schedule[i].0 == who ==> schedule[i].1.Go?
  }

  /** `s'` is where one call of `who`, finished or not, can bring `s` while the other
      side runs. */
  ghost predicate CallRan<T(!new)>(s: State<T>, s': State<T>, who: Agent, start: Action<T>) {
    exists schedule :: IsCall(schedule, who, start) && s' == Run(s, schedule)
  }

  /** The run of `schedule` passes through a state without items. */
  ghost predicate SawEmpty<T>(s: State<T>, schedule: seq<(Agent, Action<T>)>) {
    exists i :: 0 <= i <= |schedule| && Size(Run(s, schedule[..i])) == 0
  }

  /** `CallRan` of try_dequeue() through such a state. */
  ghost predicate DequeueSawEmpty<T(!new)>(s: State<T>, s': State<T>) {
    exists schedule :: IsCall(schedule, TheConsumer, StartDequeue) && s' == Run(s, schedule) && SawEmpty(s, schedule)
  }

  lemma {:induction false} RunAppend<T>(s: State<T>, x: seq<(Agent, Action<T>)>, y: seq<(Agent, Action<T>)>)
    ensures Run(s, x + y) == Run(Run(s, x), y)
    decreases |y|
  {
    hide Exec;
    if |y| == 0 {
      assert x + y == x;
    } else {
      RunAppend(s, x, y[..|y| - 1]);
      assert (x + y)[..|x + y| - 1] == x + y[..|y| - 1];
    }
  }

  lemma ConsumerMoves<T>(s: State<T>, who: Agent, a: Action<T>)
    requires Inv(s)
    ensures Exec(s, who, a).consumer == CIdle(Empty) ==>
      (s.consumer == CIdle(Empty) && (who.TheProducer? || !a.StartDequeue?)) || Size(s) == 0
    ensures who.TheConsumer? && s.consumer.CIdle? && a.StartDequeue? ==> Exec(s, who, a).consumer == CLoad
  {
    BehindTail(s);
  }

  /** A try_dequeue() that answers false passed through a state without items. */
  lemma {:induction false} DequeueCall<T(!new)>(s: State<T>, schedule: seq<(Agent, Action<T>)>)
    requires Inv(s) && s.consumer.CIdle? && IsCall(schedule, TheConsumer, StartDequeue)
    ensures Inv(Run(s, schedule))
    ensures Run(s, schedule).consumer == CIdle(Empty) ==> SawEmpty(s, schedule)
    decreases |schedule|
  {
    hide Inv, Exec, Size;
    var n := |schedule| - 1;
    var (who, a) := schedule[n];
    var before := schedule[..n];
    var m := Run(s, before);
    RunInv(s, before);
    RunInv(s, schedule);
    ConsumerMoves(m, who, a);
    if n == 0 {
      assert m == s;
    } else {
      DequeueCall(s, before);
      if Run(s, schedule).consumer == CIdle(Empty) && Size(m) != 0 {
        var i :| 0 <= i <= |before| && Size(Run(s, before[..i])) == 0;
        assert before[..i] == schedule[..i];
      }
    }
  }

  /** alloc_node() hands out a node from before the tail, or a new one; never a
      node the consumer can still reach, that is one at or after the tail. */
  lemma AllocNeverReusesLiveNode<T(!new)>(s: State<T>, a: Action<T>)
    requires Reachable(s) && s.producer.PAlloc?
    ensures var s' := ProducerStep(s, a);
      && s'.producer.PClear?
      && (forall i :: s.tailAt <= i < |s.order| ==> s.order[i] != s'.producer.n)
      && (s'.producer.n < |s.next| ==> s.firstAt < s.tailAt < |s.order| && s'.producer.n == s.order[s.firstAt])
  {
    ReachableInv(s);
    AllocTakes(s, a);
  }

  lemma AllocTakes<T>(s: State<T>, a: Action<T>)
    requires Inv(s) && s.producer.PAlloc?
    ensures s.firstAt <= s.tailAt < |s.order|
    ensures var s' := ProducerStep(s, a);
      && s'.producer.PClear?
      && (forall i :: s.tailAt <= i < |s.order| ==> s.order[i] != s'.producer.n)
      && (if |s'.next| == |s.next| then s.firstAt < s.tailAt && s'.producer.n == s.order[s.firstAt]
          else s'.producer.n == |s.next| && s.firstAt == s.tailAt)
  {
    var s1 := s.(tailCopy := s.tail, copyAt := s.tailAt);
    if s.first != s.tailCopy {
      TakeFirstInv(s, s.producer.v);
    } else if s1.first != s1.tailCopy {
      TakeFirstInv(s1, s.producer.v);
    }
    assert s.posOf[s.order[s.firstAt]] == s.firstAt;
  }

  /** A node is allocated only when every existing node but one holds an item. */
  lemma AllocOnlyWhenAllInUse<T(!new)>(s: State<T>, a: Action<T>)
    requires Reachable(s)
    ensures |ProducerStep(s, a).next| > |s.next| ==> Size(s) == |s.next| - 1
  {
    ReachableInv(s);
    if s.producer.PAlloc? {
      AllocTakes(s, a);
    }
  }

  // ----- The preallocating constructor and the destructor -----

  lemma RunOne<T>(s: State<T>, who: Agent, a: Action<T>, schedule: seq<(Agent, Action<T>)>)
    ensures Run(s, schedule + [(who, a)]) == Exec(Run(s, schedule), who, a)
  {
    assert (schedule + [(who, a)])[..|schedule|] == schedule;
  }

  predicate Quiet<T>(s: State<T>) { s.producer.PIdle? && s.consumer.CIdle? }

  /** One step, recorded in the schedule. */
  method Step<T>(s: State<T>, who: Agent, a: Action<T>, ghost before: seq<(Agent, Action<T>)>)
    returns (s': State<T>, ghost after: seq<(Agent, Action<T>)>)
    requires Inv(s) && s == Run(Initial(), before)
    ensures s' == Exec(s, who, a) && Inv(s') && s' == Run(Initial(), after)
  {
    hide Inv;
    ExecInv(s, who, a);
    RunOne(Initial(), who, a, before);
    s' := Exec(s, who, a);
    after := before + [(who, a)];
  }

  /** enqueue() with nobody else moving. */
  method EnqueueAlone<T>(s: State<T>, v: T, ghost before: seq<(Agent, Action<T>)>)
    returns (s': State<T>, ghost after: seq<(Agent, Action<T>)>)
    requires Inv(s) && Quiet(s) && s == Run(Initial(), before)
    ensures s' == Run(Initial(), after) && Inv(s') && Quiet(s')
    ensures s'.enq == s.enq + [v] && s'.deq == s.deq && s'.tailAt == s.tailAt
    ensures s.firstAt == s.tailAt ==> |s'.next| == |s.next| + 1 && s'.firstAt == s'.tailAt
  {
    hide Inv, ProducerStep;
    SoloProducerStep(s, StartEnqueue(v));
    s', after := Step(s, TheProducer, StartEnqueue(v), before);
    SoloProducerStep(s', Go);
    s', after := Step(s', TheProducer, Go, after);
    SoloProducerStep(s', Go);
    s', after := Step(s', TheProducer, Go, after);
    SoloProducerStep(s', Go);
    s', after := Step(s', TheProducer, Go, after);
    SoloProducerStep(s', Go);
    s', after := Step(s', TheProducer, Go, after);
    SoloProducerStep(s', Go);
    s', after := Step(s', TheProducer, Go, after);
  }

  /** try_dequeue() with nobody else moving. */
  method DequeueAlone<T>(s: State<T>, ghost before: seq<(Agent, Action<T>)>)
    returns (s': State<T>, got: Option<T>, ghost after: seq<(Agent, Action<T>)>)
    requires Inv(s) && Quiet(s) && s == Run(Initial(), before)
    ensures s' == Run(Initial(), after) && Inv(s') && Quiet(s')
    ensures s'.enq == s.enq && |s'.next| == |s.next|
    ensures |s.deq| < |s.enq| ==> got == Some(s.enq[|s.deq|]) && s'.deq == s.deq + [s.enq[|s.deq|]]
    ensures |s.deq| == |s.enq| ==> got == None && s'.deq == s.deq
  {
    hide Inv, ConsumerStep;
    SoloConsumerStep(s, StartDequeue);
    s', after := Step(s, TheConsumer, StartDequeue, before);
    SoloConsumerStep(s', Go);
    s', after := Step(s', TheConsumer, Go, after);
    if s'.consumer.CIdle? {
      got := None;
    } else {
      SoloConsumerStep(s', Go);
      s', after := Step(s', TheConsumer, Go, after);
      SoloConsumerStep(s', Go);
      s', after := Step(s', TheConsumer, Go, after);
      got := Some(s'.consumer.result.x);
    }
  }

  /** The preallocating constructor: an empty queue owning n + 1 nodes. */
  method Preallocate<T>(n: nat, dummy: T) returns (s: State<T>, ghost schedule: seq<(Agent, Action<T>)>)
    ensures s == Run(Initial(), schedule)
    ensures Quiet(s) && Size(s) == 0 && |s.next| == n + 1
  {
    hide Inv;
    InitialInv<T>();
    s, schedule := Initial(), [];
    for i := 0 to n
      invariant Inv(s) && Quiet(s) && s == Run(Initial(), schedule)
      invariant |s.next| == i + 1 && |s.enq| == i && |s.deq| == 0 && s.firstAt == s.tailAt
    {
      s, schedule := EnqueueAlone(s, dummy, schedule);
    }
    for i := 0 to n
      invariant Inv(s) && Quiet(s) && s == Run(Initial(), schedule)
      invariant |s.next| == n + 1 && |s.enq| == n && |s.deq| == i
    {
      var got;
      s, got, schedule := DequeueAlone(s, schedule);
    }
  }

  lemma NoAllocationStep<T>(s: State<T>, who: Agent, a: Action<T>)
    requires Inv(s) && Size(s) != |s.next| - 1
    ensures |Exec(s, who, a).next| == |s.next|
  {
    hide ChainOk, NodesOk, ValuesOk;
    SoloProducerStep(s, a);
    if s.producer.PAlloc? {
      AllocTakes(s, a);
    }
  }

  /** A queue that owns n + 1 nodes, as one preallocated with n does, allocates
      nothing in any run during which it always holds fewer than n items. */
  lemma {:induction false} PreallocatedRun<T>(s: State<T>, schedule: seq<(Agent, Action<T>)>, n: nat)
    requires Inv(s) && |s.next| >= n + 1
    requires forall j {:trigger schedule[..j]} :: 0 <= j < |schedule| ==> Size(Run(s, schedule[..j])) < n
    ensures |Run(s, schedule).next| == |s.next|
    decreases |schedule|
  {
    hide Inv, Exec;
    if |schedule| > 0 {
      var before := schedule[..|schedule| - 1];
      forall j | 0 <= j < |before|
        ensures Size(Run(s, before[..j])) < n
      {
        assert before[..j] == schedule[..j];
      }
      PreallocatedRun(s, before, n);
      RunInv(s, before);
      NoAllocationStep(Run(s, before), schedule[|schedule| - 1].0, schedule[|schedule| - 1].1);
    }
  }

  /** The destructor's walk from first_ along the links frees every node once. */
  method Destroy<T>(s: State<T>) returns (freed: seq<nat>)
    requires Inv(s) && Quiet(s)
    ensures forall i, j :: 0 <= i < j < |freed| ==> freed[i] != freed[j]
    ensures forall n: nat :: n < |s.next| <==> n in freed
  {
    hide Inv;
    PointersInv(s);
    var n := Some(s.first);
    freed := [];
    ghost var at := s.firstAt;
    while n.Some?
      invariant s.firstAt <= at <= |s.order|
      invariant freed == s.order[s.firstAt..at]
      invariant n == if at < |s.order| then Some(s.order[at]) else None
      decreases |s.order| - at
    {
      assert at + 1 < |s.order| ==> s.next[s.order[at]] == Some(s.order[at + 1]);
      freed := freed + [n.value];
      n := s.next[n.value];
      at := at + 1;
    }
    forall m: nat | m < |s.next|
      ensures m in freed
    {
      assert InChain(s.order, s.firstAt, m);
      var i :| s.firstAt <= i < |s.order| && s.order[i] == m;
      assert freed[i - s.firstAt] == m;
    }
  }

  lemma SoloConsumerStep<T>(s: State<T>, a: Action<T>)
    requires Inv(s)
    ensures var s' := ConsumerStep(s, a);
      && s'.producer == s.producer && s'.enq == s.enq && |s'.next| == |s.next|
      && (!s.consumer.CStore? ==> s'.deq == s.deq)
      && (s.consumer.CIdle? && a.StartDequeue? ==> s'.consumer == CLoad)
      && (s.consumer.CLoad? ==> if |s.deq| == |s.enq| then s'.consumer == CIdle(Empty) else s'.consumer.CRead?)
      && (s.consumer.CRead? ==> s'.consumer.CStore? && |s.deq| < |s.enq|)
      && (s.consumer.CStore? ==>
            |s.deq| < |s.enq| && s'.consumer == CIdle(Got(s.enq[|s.deq|])) && s'.deq == s.deq + [s.enq[|s.deq|]])
  {
    hide ChainOk, NodesOk, ValuesOk;
    BehindTail(s);
  }

  /** What one producer step leaves alone, and where it goes next. */
  lemma SoloProducerStep<T>(s: State<T>, a: Action<T>)
    requires Inv(s)
    ensures var s' := ProducerStep(s, a);
      && s'.consumer == s.consumer && s'.deq == s.deq && s'.tailAt == s.tailAt
      && s'.enq == (if s.producer.PLink? then s.enq + [s.producer.v] else s.enq)
      && (s.producer.PIdle? && a.StartEnqueue? ==> s'.producer == PAlloc(a.v))
      && (s.producer.PAlloc? ==>
            && s'.producer.PClear? && s'.producer.v == s.producer.v
            && (s.firstAt == s.tailAt ==> |s'.next| == |s.next| + 1 && s'.firstAt == s.firstAt))
      && (!s.producer.PAlloc? ==> |s'.next| == |s.next| && s'.firstAt == s.firstAt)
      && (s.producer.PClear? ==> s'.producer == PValue(s.producer.v, s.producer.n))
      && (s.producer.PValue? ==> s'.producer == PLink(s.producer.v, s.producer.n))
      && (s.producer.PLink? ==> s'.producer == PHead(s.producer.n))
      && (s.producer.PHead? ==> s'.producer == PIdle)
  {
    hide NodesOk, ValuesOk;
    if s.producer.PAlloc? {
      AllocTakes(s, a);
      AllocKeepsValue(s, a);
    } else {
      FirstIsNode(s);
    }
  }

  lemma AllocKeepsValue<T>(s: State<T>, a: Action<T>)
    requires Inv(s) && s.producer.PAlloc?
    ensures var s' := ProducerStep(s, a);
      && s'.producer.PClear? && s'.producer.v == s.producer.v
      && (s.firstAt == s.tailAt ==> |s'.next| == |s.next| + 1 && s'.firstAt == s.firstAt)
  {
    AllocTakes(s, a);
  }
}
