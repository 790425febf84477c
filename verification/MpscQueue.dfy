/** The intrusive multi-producer/single-consumer queue with a stub node
    (libs/intrusive_mpmc_link_queue.h): any number of producers, each possibly
    stalled between its exchange and its link. */
module MpscQueue {
  import opened Common

  /** Nodes are numbered; number 0 is the stub embedded in the queue. */
  const STUB: nat := 0

  /** mpscq_push, one constructor per access. `ticket` is the position of the
      node in the order of all head exchanges. */
  datatype Producer =
    | Idle
    | Clear(n: nat)
    | Exchange(n: nat)
    | Link(n: nat, prev: nat, ticket: nat)

  datatype PopResult = NoCall | Nothing | Popped(n: nat)

  /** mpscq_pop, one constructor per access to shared memory. */
  datatype Consumer =
    | Out(result: PopResult)
    | LoadNext
    | LoadSecond(t: nat)
    | LoadHead(t: nat)
    | StubClear(t: nat)
    | StubExchange(t: nat)
    | StubLink(t: nat, prev: nat, ticket: nat)
    | Reload(t: nat)

  /** `order` lists all nodes in the order of their head exchanges, the initial
      stub first, and `base` is the position of the tail in it; `popped` lists
      the nodes returned. `ticketOf` is each node's latest position in `order`,
      `holder` the producer that last began to push it. `calm` records whether at some instant of the current
      pop there was no user node or some push was half finished. */
  datatype State = State(
    next: seq<Option<nat>>,
    head: nat,
    tail: nat,
    producers: seq<Producer>,
    consumer: Consumer,
    order: seq<nat>,
    base: nat,
    popped: seq<nat>,
    ticketOf: seq<nat>,
    holder: seq<nat>,
    calm: bool)

  datatype Action = StartPush(n: nat) | StartPop | Go

  datatype Agent = AProducer(p: nat) | TheConsumer

  function Initial(nodeCount: nat, producerCount: nat): State {
    State(seq(nodeCount + 1, _ => None), STUB, STUB,
          seq(producerCount, _ => Idle), Out(NoCall), [STUB], 0, [],
          seq(nodeCount + 1, _ => 0), seq(nodeCount + 1, _ => 0), false)
  }

  /** The node lies between tail and head (see `QueuedMeansInChain`). */
  predicate Queued(s: State, n: nat) {
    n < |s.ticketOf| && s.base <= s.ticketOf[n] < |s.order| && s.order[s.ticketOf[n]] == n
  }

  /** A node the user may push: not the stub, not queued, not being pushed. */
  predicate Free(s: State, n: nat) {
    && n != STUB && n < |s.next| && !Queued(s, n)
    && (forall p :: 0 <= p < |s.producers| && s.producers[p] != Idle ==> s.producers[p].n != n)
  }

  /** The user nodes of a list of nodes. */
  function Users(nodes: seq<nat>): seq<nat> {
    if |nodes| == 0 then []
    else Users(nodes[..|nodes| - 1]) + (if nodes[|nodes| - 1] == STUB then [] else [nodes[|nodes| - 1]])
  }

  /** The user nodes in the queue, oldest first. */
  function Queue(s: State): seq<nat>
    requires s.base <= |s.order|
  {
    Users(s.order[s.base..])
  }

  /** No user node is queued, or a producer has exchanged and not yet linked. */
  ghost predicate Calm(s: State)
    requires s.base <= |s.order|
  {
    Queue(s) == [] || exists p :: 0 <= p < |s.producers| && s.producers[p].Link?
  }

  function SetProducer(s: State, p: nat, l: Producer): State
    requires p < |s.producers|
  {
    s.(producers := s.producers[p := l])
  }

  function ProducerStep(s: State, p: nat, a: Action): State
    requires p < |s.producers|
  {
    match s.producers[p]
    case Idle =>
      if a.StartPush? && Free(s, a.n) && a.n < |s.holder| then
        SetProducer(s, p, Clear(a.n)).(holder := s.holder[a.n := p])
      else s
    case Clear(n) =>
      if n < |s.next| then SetProducer(s, p, Exchange(n)).(next := s.next[n := None]) else s
    case Exchange(n) =>
      if n < |s.ticketOf| then
        SetProducer(s, p, Link(n, s.head, |s.order|)).(
          head := n, order := s.order + [n], ticketOf := s.ticketOf[n := |s.order|])
      else s
    case Link(n, prev, _) =>
      if prev < |s.next| then SetProducer(s, p, Idle).(next := s.next[prev := Some(n)]) else s
  }

  /** Move the tail to `m` and return the old tail `t`. */
  function Return(s: State, t: nat, m: nat): State {
    s.(tail := m, base := s.base + 1, popped := s.popped + [t], consumer := Out(Popped(t)))
  }

  function ConsumerStep(s: State, a: Action): State {
    match s.consumer
    case Out(_) => if a.StartPop? then s.(consumer := LoadNext) else s
    case LoadNext =>
      if s.tail >= |s.next| then s else
      (match s.next[s.tail]
       case None =>
         if s.tail == STUB then s.(consumer := Out(Nothing)) else s.(consumer := LoadHead(s.tail))
       case Some(m) =>
         if s.tail == STUB then s.(tail := m, base := s.base + 1, consumer := LoadSecond(m))
         else Return(s, s.tail, m))
    case LoadSecond(t) =>
      if t >= |s.next| then s else
      (match s.next[t]
       case None => s.(consumer := LoadHead(t))
       case Some(m) => Return(s, t, m))
    case LoadHead(t) =>
      if s.head != t then s.(consumer := Out(Nothing)) else s.(consumer := StubClear(t))
    case StubClear(t) =>
      if STUB < |s.next| then s.(next := s.next[STUB := None], consumer := StubExchange(t)) else s
    case StubExchange(t) =>
      if STUB < |s.ticketOf| then
        s.(head := STUB, order := s.order + [STUB], ticketOf := s.ticketOf[STUB := |s.order|],
           consumer := StubLink(t, s.head, |s.order|))
      else s
    case StubLink(t, prev, _) =>
      if prev < |s.next| then s.(next := s.next[prev := Some(STUB)], consumer := Reload(t)) else s
    case Reload(t) =>
      if t >= |s.next| then s else
      (match s.next[t]
       case None => s.(consumer := Out(Nothing))
       case Some(m) => Return(s, t, m))
  }

  /** One access, and the record of what the current pop has seen. */
  ghost function Exec(s: State, who: Agent, a: Action): State {
    var s' := if who.TheConsumer? then ConsumerStep(s, a)
              else if who.p < |s.producers| then ProducerStep(s, who.p, a)
              else s;
    s'.(calm := (s.calm && !s.consumer.Out?) || (s'.base <= |s'.order| && Calm(s')))
  }

  ghost function Run(s: State, schedule: seq<(Agent, Action)>): State
    decreases |schedule|
  {
    if |schedule| == 0 then s
    else
      var (who, a) := schedule[|schedule| - 1];
      Exec(Run(s, schedule[..|schedule| - 1]), who, a)
  }

  // ----- The invariant -----

  predicate Shape(s: State) {
    && s.base < |s.order| && |s.next| == |s.ticketOf| == |s.holder| > 0
    && s.order[s.base] == s.tail
    && s.order[|s.order| - 1] == s.head
    && s.head < |s.next| && s.next[s.head] == None
    && (forall i :: s.base <= i < |s.order| ==> s.order[i] < |s.next| && s.ticketOf[s.order[i]] == i)
  }

  /** Somebody has exchanged the node at position `k` and not yet linked it. */
  predicate LinkPending(s: State, k: nat) {
    && k < |s.order| && s.order[k] < |s.holder|
    && if s.order[k] == STUB then s.consumer.StubLink? && s.consumer.ticket == k
       else
         var p := s.holder[s.order[k]];
         p < |s.producers| && s.producers[p].Link? && s.producers[p].ticket == k
  }

  ghost predicate LinksOk(s: State)
    requires Shape(s)
  {
    forall i: nat :: s.base <= i && i + 1 < |s.order| ==>
      s.next[s.order[i]] == Some(s.order[i + 1]) || LinkPending(s, i + 1)
  }

  /** A link about to be stored joins neighbours whose link is still empty. */
  predicate HalfPush(s: State, n: nat, prev: nat, k: nat)
    requires Shape(s)
  {
    s.base < k < |s.order| && s.order[k] == n && s.order[k - 1] == prev && s.next[prev] == None
  }

  ghost predicate ProducerOk(s: State, l: Producer)
    requires Shape(s)
  {
    match l
    case Idle => true
    case Clear(n) => n != STUB && n < |s.next| && !Queued(s, n)
    case Exchange(n) => n != STUB && n < |s.next| && !Queued(s, n) && s.next[n] == None
    case Link(n, prev, k) => n != STUB && HalfPush(s, n, prev, k)
  }

  ghost predicate ProducersOk(s: State)
    requires Shape(s)
  {
    forall p :: 0 <= p < |s.producers| ==>
      ProducerOk(s, s.producers[p]) && (s.producers[p] != Idle ==> s.holder[s.producers[p].n] == p)
  }

  ghost predicate ConsumerOk(s: State)
    requires Shape(s)
  {
    match s.consumer
    case Out(_) => true
    case LoadNext => true
    case LoadSecond(t) => t == s.tail != STUB
    case LoadHead(t) => t == s.tail != STUB && (s.calm || s.base + 1 == |s.order|)
    case StubClear(t) => t == s.tail != STUB && !Queued(s, STUB)
    case StubExchange(t) => t == s.tail != STUB && !Queued(s, STUB) && s.next[STUB] == None
    case StubLink(t, prev, k) => t == s.tail != STUB && HalfPush(s, STUB, prev, k)
    case Reload(t) => t == s.tail != STUB && s.base + 1 < |s.order|
  }

  ghost predicate Inv(s: State) {
    && Shape(s)
    && LinksOk(s)
    && ProducersOk(s)
    && ConsumerOk(s)
    && s.popped == Users(s.order[..s.base])
  }

  // ----- Every step keeps the invariant -----

  /** `Queued` is membership in the chain, and no node is in it twice. */
  lemma QueuedMeansInChain(s: State, n: nat)
    requires Shape(s)
    ensures Queued(s, n) <==> exists i :: s.base <= i < |s.order| && s.order[i] == n
    ensures forall i, j :: s.base <= i < j < |s.order| ==> s.order[i] != s.order[j]
  {
    if i :| s.base <= i < |s.order| && s.order[i] == n {
      assert s.ticketOf[s.order[i]] == i;
    }
  }

  lemma InitialInv(nodeCount: nat, producerCount: nat)
    ensures Inv(Initial(nodeCount, producerCount))
  {
    assert Initial(nodeCount, producerCount).order[..0] == [];
  }

  /** A pending link is still empty. */
  lemma PendingIsEmpty(s: State, k: nat)
    requires Shape(s) && ProducersOk(s) && ConsumerOk(s) && LinkPending(s, k)
    ensures s.base < k < |s.order| && s.next[s.order[k - 1]] == None
  {
    if s.order[k] != STUB {
      assert ProducerOk(s, s.producers[s.holder[s.order[k]]]);
    }
  }

  /** The tail's link, once stored, points to the next exchanged node. */
  lemma TailLink(s: State)
    requires Inv(s)
    ensures s.next[s.tail].Some? ==> s.base + 1 < |s.order| && s.next[s.tail] == Some(s.order[s.base + 1])
    ensures s.next[s.tail].None? ==> s.base + 1 == |s.order| || LinkPending(s, s.base + 1)
  {
    if s.next[s.tail].Some? && LinkPending(s, s.base + 1) {
      PendingIsEmpty(s, s.base + 1);
    }
  }

  lemma InvShape(s: State)
    requires Inv(s)
    ensures Shape(s)
  {
  }

  lemma InvProducer(s: State, p: nat)
    requires Inv(s) && p < |s.producers|
    ensures ProducerOk(s, s.producers[p])
    ensures s.producers[p] != Idle ==> s.holder[s.producers[p].n] == p
  {
  }

  lemma StartPushProducers(s: State, p: nat, a: Action)
    requires Inv(s) && p < |s.producers| && s.producers[p] == Idle
    ensures var s' := ProducerStep(s, p, a); Shape(s') && ProducersOk(s')
  {
    hide LinksOk, ConsumerOk;
    var s' := ProducerStep(s, p, a);
    assert ProducerOk(s, s.producers[p]);
    assert Shape(s');
    forall q | 0 <= q < |s.producers| && q != p
      ensures ProducerOk(s', s'.producers[q]) && (s'.producers[q] != Idle ==> s'.holder[s'.producers[q].n] == q)
    {
      assert ProducerOk(s, s.producers[q]);
    }
  }

  lemma StartPushInv(s: State, p: nat, a: Action)
    requires Inv(s) && p < |s.producers| && s.producers[p] == Idle
    ensures Inv(ProducerStep(s, p, a))
  {
    hide ProducersOk;
    var s' := ProducerStep(s, p, a);
    StartPushProducers(s, p, a);
    InvProducer(s, p);
    assert LinksOk(s');
    assert ConsumerOk(s');
  }

  lemma ClearProducers(s: State, p: nat, a: Action)
    requires Inv(s) && p < |s.producers| && s.producers[p].Clear?
    ensures var s' := ProducerStep(s, p, a); Shape(s') && ProducersOk(s')
  {
    hide LinksOk, ConsumerOk;
    var s' := ProducerStep(s, p, a);
    assert ProducerOk(s, s.producers[p]);
    assert Shape(s');
    forall q | 0 <= q < |s.producers| && q != p
      ensures ProducerOk(s', s'.producers[q]) && (s'.producers[q] != Idle ==> s'.holder[s'.producers[q].n] == q)
    {
      assert ProducerOk(s, s.producers[q]);
    }
  }

  lemma ClearInv(s: State, p: nat, a: Action)
    requires Inv(s) && p < |s.producers| && s.producers[p].Clear?
    ensures Inv(ProducerStep(s, p, a))
  {
    hide ProducersOk;
    var s' := ProducerStep(s, p, a);
    ClearProducers(s, p, a);
    InvProducer(s, p);
    assert forall i :: s.base <= i < |s.order| ==> s'.next[s.order[i]] == s.next[s.order[i]];
    assert LinksOk(s');
    assert ConsumerOk(s');
  }

  lemma ExchangeProducers(s: State, p: nat, a: Action)
    requires Inv(s) && p < |s.producers| && s.producers[p].Exchange?
    ensures var s' := ProducerStep(s, p, a).(calm := true); Shape(s') && ProducersOk(s')
  {
    hide LinksOk, ConsumerOk;
    var s' := ProducerStep(s, p, a).(calm := true);
    assert ProducerOk(s, s.producers[p]);
    assert Shape(s');
    forall q | 0 <= q < |s.producers| && q != p
      ensures ProducerOk(s', s'.producers[q]) && (s'.producers[q] != Idle ==> s'.holder[s'.producers[q].n] == q)
    {
      assert ProducerOk(s, s.producers[q]);
    }
  }

  lemma ExchangeInv(s: State, p: nat, a: Action)
    requires Inv(s) && p < |s.producers| && s.producers[p].Exchange?
    ensures Inv(ProducerStep(s, p, a).(calm := true))
  {
    hide ProducersOk;
    var s' := ProducerStep(s, p, a).(calm := true);
    ExchangeProducers(s, p, a);
    InvProducer(s, p);
    assert s'.order[..s'.base] == s.order[..s.base];
    assert LinksOk(s');
    assert ConsumerOk(s');
  }

  /** Storing a pending link changes no other link of the queue. */
  lemma LinkStored(s: State, n: nat, prev: nat, k: nat)
    requires Shape(s) && HalfPush(s, n, prev, k)
    ensures var next := s.next[prev := Some(n)];
      && Shape(s.(next := next))
      && (forall i :: s.base <= i < |s.order| && i != k - 1 ==> next[s.order[i]] == s.next[s.order[i]])
      && next[s.order[k - 1]] == Some(s.order[k])
  {
  }

  lemma LinkProducers(s: State, p: nat, a: Action)
    requires Inv(s) && p < |s.producers| && s.producers[p].Link?
    ensures var s' := ProducerStep(s, p, a); Shape(s') && ProducersOk(s')
  {
    hide LinksOk, ConsumerOk;
    var s' := ProducerStep(s, p, a);
    assert ProducerOk(s, s.producers[p]);
    LinkStored(s, s.producers[p].n, s.producers[p].prev, s.producers[p].ticket);
    assert Shape(s');
    forall q | 0 <= q < |s.producers| && q != p
      ensures ProducerOk(s', s'.producers[q]) && (s'.producers[q] != Idle ==> s'.holder[s'.producers[q].n] == q)
    {
      assert ProducerOk(s, s.producers[q]);
    }
  }

  predicate LinkedOrPending(s: State, i: nat)
    requires Shape(s) && s.base <= i && i + 1 < |s.order|
  {
    s.next[s.order[i]] == Some(s.order[i + 1]) || LinkPending(s, i + 1)
  }

  lemma LinkShape(s: State, p: nat, a: Action)
    requires Inv(s) && p < |s.producers| && s.producers[p].Link?
    ensures var s', l := ProducerStep(s, p, a), s.producers[p];
      && Shape(s) && HalfPush(s, l.n, l.prev, l.ticket) && l.prev < |s.next|
      && Shape(s') && s'.base == s.base && s'.order == s.order && s'.next == s.next[l.prev := Some(l.n)]
  {
    InvProducer(s, p);
    LinkStored(s, s.producers[p].n, s.producers[p].prev, s.producers[p].ticket);
    hide LinksOk, ProducersOk, ConsumerOk, Users;
  }

  /** The other pending links stay pending. */
  lemma PendingKept(s: State, p: nat, a: Action, k: nat)
    requires p < |s.producers| && s.producers[p].Link? && k != s.producers[p].ticket && LinkPending(s, k)
    ensures LinkPending(ProducerStep(s, p, a), k)
  {
  }

  lemma WasLinkedOrPending(s: State, i: nat)
    requires Inv(s) && s.base <= i && i + 1 < |s.order|
    ensures Shape(s) && LinkedOrPending(s, i)
  {
  }

  lemma LinkAt(s: State, p: nat, a: Action, i: nat)
    requires Inv(s) && p < |s.producers| && s.producers[p].Link? && s.base <= i && i + 1 < |s.order|
    ensures var s' := ProducerStep(s, p, a);
      Shape(s') && s'.base == s.base && s'.order == s.order && LinkedOrPending(s', i)
  {
    LinkShape(s, p, a);
    WasLinkedOrPending(s, i);
    hide Inv, ProducerStep, LinkPending;
    if i + 1 != s.producers[p].ticket && LinkPending(s, i + 1) {
      PendingKept(s, p, a, i + 1);
    }
  }

  lemma LinkLinks(s: State, p: nat, a: Action)
    requires Inv(s) && p < |s.producers| && s.producers[p].Link?
    ensures var s' := ProducerStep(s, p, a); Shape(s') && LinksOk(s')
  {
    LinkShape(s, p, a);
    hide Inv, LinkPending, ProducerStep, HalfPush;
    var s' := ProducerStep(s, p, a);
    forall i: nat | s'.base <= i && i + 1 < |s'.order|
      ensures LinkedOrPending(s', i)
    {
      LinkAt(s, p, a, i);
    }
  }

  lemma LinkInv(s: State, p: nat, a: Action)
    requires Inv(s) && p < |s.producers| && s.producers[p].Link?
    ensures Inv(ProducerStep(s, p, a))
  {
    hide ProducersOk, LinksOk;
    var s' := ProducerStep(s, p, a);
    LinkProducers(s, p, a);
    LinkLinks(s, p, a);
    InvProducer(s, p);
    LinkStored(s, s.producers[p].n, s.producers[p].prev, s.producers[p].ticket);
  }

  lemma {:induction false} UsersOfSnoc(nodes: seq<nat>, n: nat)
    ensures Users(nodes + [n]) == Users(nodes) + (if n == STUB then [] else [n])
  {
    assert (nodes + [n])[..|nodes|] == nodes;
  }

  /** Moving the tail past its first node once the link to the next is there. */
  lemma AdvanceInv(s: State, m: nat, s': State)
    requires Inv(s) && s.next[s.tail] == Some(m)
    requires s' == s.(tail := m, base := s.base + 1, popped := s'.popped, consumer := s'.consumer)
    requires s'.popped == s.popped + (if s.tail == STUB then [] else [s.tail])
    requires !s.consumer.StubLink? && (s'.consumer.Out? || (s'.consumer == LoadSecond(m) && s.tail == STUB))
    ensures Inv(s')
  {
    TailLink(s);
    assert s'.order[..s'.base] == s.order[..s.base] + [s.tail];
    UsersOfSnoc(s.order[..s.base], s.tail);
  }

  /** Steps of the consumer that touch only its program counter. */
  lemma QuietConsumerInv(s: State, c: Consumer, calm: bool)
    requires Inv(s) && !s.consumer.StubLink? && !c.StubLink?
    requires ConsumerOk(s.(consumer := c, calm := calm))
    ensures Inv(s.(consumer := c, calm := calm))
  {
    var s' := s.(consumer := c, calm := calm);
    assert forall k: nat :: LinkPending(s, k) ==> LinkPending(s', k);
  }

  lemma SetCalm(s: State, calm: bool)
    requires Inv(s) && (s.consumer.LoadHead? && s.calm ==> calm)
    ensures Inv(s.(calm := calm))
  {
    var s' := s.(calm := calm);
    assert forall k: nat :: LinkPending(s, k) ==> LinkPending(s', k);
  }

  lemma StubClearShape(s: State)
    requires Inv(s) && s.consumer.StubClear?
    ensures var s' := ConsumerStep(s, Go);
      Shape(s') && forall i :: s.base <= i < |s.order| ==> s'.next[s.order[i]] == s.next[s.order[i]]
  {
    hide LinksOk, ProducersOk, Users;
    assert forall i :: s.base <= i < |s.order| ==> s.ticketOf[s.order[i]] == i;
  }

  lemma StubClearProducer(s: State, q: nat)
    requires Inv(s) && s.consumer.StubClear? && q < |s.producers|
    ensures var s' := ConsumerStep(s, Go); Shape(s') && ProducerOk(s', s.producers[q])
  {
    InvProducer(s, q);
    StubClearShape(s);
    hide LinksOk, ProducersOk, Users;
  }

  lemma StubClearInv(s: State)
    requires Inv(s) && s.consumer.StubClear?
    ensures Inv(ConsumerStep(s, Go))
  {
    var s' := ConsumerStep(s, Go);
    StubClearShape(s);
    forall q | 0 <= q < |s.producers|
      ensures ProducerOk(s', s.producers[q])
    {
      StubClearProducer(s, q);
    }
    hide ProducerOk;
    assert forall k: nat :: LinkPending(s, k) ==> LinkPending(s', k);
  }

  lemma StubExchangeInv(s: State)
    requires Inv(s) && s.consumer.StubExchange?
    ensures Inv(ConsumerStep(s, Go))
  {
    var s' := ConsumerStep(s, Go);
    assert s'.order[..s'.base] == s.order[..s.base];
    forall q | 0 <= q < |s.producers|
      ensures ProducerOk(s', s'.producers[q])
    {
      InvProducer(s, q);
    }
  }

  lemma StubLinkInv(s: State)
    requires Inv(s) && s.consumer.StubLink?
    ensures Inv(ConsumerStep(s, Go))
  {
    hide LinksOk, ProducersOk, Users;
    StubLinkProducers(s);
    StubLinkLinks(s);
  }

  lemma StubLinkProducer(s: State, q: nat)
    requires Inv(s) && s.consumer.StubLink? && q < |s.producers|
    ensures var s' := ConsumerStep(s, Go);
      Shape(s') && ProducerOk(s', s.producers[q]) && (s.producers[q] != Idle ==> s.holder[s.producers[q].n] == q)
  {
    InvProducer(s, q);
    LinkStored(s, STUB, s.consumer.prev, s.consumer.ticket);
    hide LinksOk, ProducersOk, Users;
  }

  lemma StubLinkProducers(s: State)
    requires Inv(s) && s.consumer.StubLink?
    ensures var s' := ConsumerStep(s, Go); Shape(s') && ProducersOk(s')
  {
    LinkStored(s, STUB, s.consumer.prev, s.consumer.ticket);
    forall q | 0 <= q < |s.producers|
      ensures var s' := ConsumerStep(s, Go);
        Shape(s') && ProducerOk(s', s.producers[q]) && (s.producers[q] != Idle ==> s.holder[s.producers[q].n] == q)
    {
      StubLinkProducer(s, q);
    }
    hide Inv, ProducerOk, LinkPending;
  }

  lemma StubLinkLinks(s: State)
    requires Inv(s) && s.consumer.StubLink?
    ensures var s' := ConsumerStep(s, Go); Shape(s') && LinksOk(s')
  {
    var s' := ConsumerStep(s, Go);
    LinkStored(s, STUB, s.consumer.prev, s.consumer.ticket);
    hide ProducersOk;
    forall i: nat | s.base <= i && i + 1 < |s.order| && i + 1 != s.consumer.ticket
      ensures s'.next[s'.order[i]] == Some(s'.order[i + 1]) || LinkPending(s', i + 1)
    {
      assert s.next[s.order[i]] == Some(s.order[i + 1]) || LinkPending(s, i + 1);
    }
  }

  /** An empty link at the tail means that nothing follows it or that a producer
      is half way through a push. */
  lemma EmptyLinkIsCalm(s: State)
    requires Inv(s) && s.next[s.tail] == None && !s.consumer.StubLink?
    ensures s.base + 1 < |s.order| || s.tail == STUB ==> Calm(s)
  {
    TailLink(s);
    if s.base + 1 < |s.order| {
      assert LinkPending(s, s.base + 1);
      var p := s.holder[s.order[s.base + 1]];
      assert s.producers[p].Link?;
    } else if s.tail == STUB {
      assert s.order[s.base..] == [STUB];
      assert Users([STUB]) == [];
    }
  }

  /** The consumer's step on an empty tail link. */
  lemma EmptyTailInv(s: State, a: Action)
    requires Inv(s) && s.next[s.tail] == None
    requires s.consumer.LoadNext? || s.consumer.LoadSecond? || s.consumer.Reload?
    ensures Inv(Exec(s, TheConsumer, a))
  {
    var s' := Exec(s, TheConsumer, a);
    EmptyLinkIsCalm(s);
    if s.base + 1 < |s.order| || s.tail == STUB {
      assert Calm(ConsumerStep(s, a));
    }
    QuietConsumerInv(s, s'.consumer, s'.calm);
  }

  /** ... and on a link that is there: return the tail, or skip the stub. */
  lemma LinkedTailInv(s: State, a: Action)
    requires Inv(s) && s.next[s.tail].Some?
    requires s.consumer.LoadNext? || s.consumer.LoadSecond? || s.consumer.Reload?
    ensures Inv(Exec(s, TheConsumer, a))
  {
    var s' := ConsumerStep(s, a);
    TailLink(s);
    AdvanceInv(s, s.next[s.tail].value, s');
    SetCalm(s', Exec(s, TheConsumer, a).calm);
  }

  lemma LoadHeadInv(s: State, a: Action)
    requires Inv(s) && s.consumer.LoadHead?
    ensures Inv(Exec(s, TheConsumer, a))
  {
    var s' := Exec(s, TheConsumer, a);
    if s.head == s.tail {
      assert s.ticketOf[s.order[s.base]] == s.base && s.ticketOf[s.order[|s.order| - 1]] == |s.order| - 1;
    }
    QuietConsumerInv(s, s'.consumer, s'.calm);
  }

  lemma ConsumerStepInv(s: State, a: Action)
    requires Inv(s)
    ensures Inv(Exec(s, TheConsumer, a))
  {
    var calm := Exec(s, TheConsumer, a).calm;
    match s.consumer
    case Out(_) => QuietConsumerInv(s, ConsumerStep(s, a).consumer, calm);
    case LoadHead(_) => LoadHeadInv(s, a);
    case StubClear(_) => StubClearInv(s); SetCalm(ConsumerStep(s, a), calm);
    case StubExchange(_) => StubExchangeInv(s); SetCalm(ConsumerStep(s, a), calm);
    case StubLink(_, _, _) => StubLinkInv(s); SetCalm(ConsumerStep(s, a), calm);
    case _ =>
      if s.next[s.tail].Some? {
        LinkedTailInv(s, a);
      } else {
        EmptyTailInv(s, a);
      }
  }

  lemma ProducerStepInv(s: State, p: nat, a: Action)
    requires Inv(s) && p < |s.producers|
    ensures Inv(Exec(s, AProducer(p), a))
  {
    hide Inv;
    var s' := ProducerStep(s, p, a);
    var calm := Exec(s, AProducer(p), a).calm;
    InvShape(s);
    InvProducer(s, p);
    match s.producers[p]
    case Idle => StartPushInv(s, p, a); SetCalm(s', calm);
    case Clear(_) => ClearInv(s, p, a); SetCalm(s', calm);
    case Exchange(_) =>
      ExchangeInv(s, p, a);
      assert Calm(s') by {
        assert s'.producers[p].Link?;
      }
    case Link(_, _, _) => LinkInv(s, p, a); SetCalm(s', calm);
  }

  lemma {:induction false} RunInv(s: State, schedule: seq<(Agent, Action)>)
    requires Inv(s)
    ensures Inv(Run(s, schedule))
    decreases |schedule|
  {
    hide Inv, ConsumerStep, ProducerStep, Calm;
    if |schedule| > 0 {
      RunInv(s, schedule[..|schedule| - 1]);
      var (who, a) := schedule[|schedule| - 1];
      var r := Run(s, schedule[..|schedule| - 1]);
      if who.TheConsumer? {
        ConsumerStepInv(r, a);
      } else if who.p < |r.producers| {
        ProducerStepInv(r, who.p, a);
      } else {
        SetCalm(r, Exec(r, who, a).calm);
      }
    }
  }

  ghost predicate Reachable(s: State) {
    exists nodeCount: nat, producerCount: nat, schedule: seq<(Agent, Action)> ::
      s == Run(Initial(nodeCount, producerCount), schedule)
  }

  lemma ReachableInv(s: State)
    requires Reachable(s)
    ensures Inv(s)
  {
    hide Inv, Exec;
    var nodeCount: nat, producerCount: nat, schedule: seq<(Agent, Action)> :|
      s == Run(Initial(nodeCount, producerCount), schedule);
    InitialInv(nodeCount, producerCount);
    RunInv(Initial(nodeCount, producerCount), schedule);
  }

  // ----- What every run guarantees -----

  lemma {:induction false} UsersOfConcat(one: seq<nat>, two: seq<nat>)
    ensures Users(one + two) == Users(one) + Users(two)
    decreases |two|
  {
    if |two| == 0 {
      assert one + two == one;
    } else {
      assert (one + two)[..|one + two| - 1] == one + two[..|two| - 1];
      UsersOfConcat(one, two[..|two| - 1]);
    }
  }

  /** Every pushed node is returned exactly once, in the order of the head
      exchanges: the nodes pushed so far are those returned, in order, followed
      by those still queued; and no node, the stub included, is queued twice. */
  lemma PoppedInPushOrder(s: State)
    requires Reachable(s)
    ensures s.base < |s.order|
    ensures Users(s.order) == s.popped + Queue(s)
    ensures forall i, j :: s.base <= i < j < |s.order| ==> s.order[i] != s.order[j]
  {
    ReachableInv(s);
    UsersOfConcat(s.order[..s.base], s.order[s.base..]);
    assert s.order == s.order[..s.base] + s.order[s.base..];
    QueuedMeansInChain(s, STUB);
  }

  /** Only an exchange adds to the queue and only a returning pop removes from
      it, its oldest node; every other step, of producers stalled anywhere and of
      pops that return nothing, leaves the user nodes and their order alone. */
  lemma StepsRefineFifo(s: State, who: Agent, a: Action)
    requires Reachable(s) && s.base <= |s.order|
    ensures var s' := Exec(s, who, a); s'.base <= |s'.order|
    ensures who.AProducer? && who.p < |s.producers| && s.producers[who.p].Exchange? ==>
      Queue(Exec(s, who, a)) == Queue(s) + [s.producers[who.p].n]
    ensures who.AProducer? && !(who.p < |s.producers| && s.producers[who.p].Exchange?) ==>
      Queue(Exec(s, who, a)) == Queue(s)
    ensures var c := Exec(s, who, a).consumer;
      who.TheConsumer? && !s.consumer.Out? && c.Out? && c.result.Popped? ==>
        Queue(s) == [c.result.n] + Queue(Exec(s, who, a))
    ensures var c := Exec(s, who, a).consumer;
      who.TheConsumer? && (s.consumer.Out? || !c.Out? || c.result.Nothing?) ==> Queue(Exec(s, who, a)) == Queue(s)
  {
    ReachableInv(s);
    hide Inv, Users, Calm, ConsumerStep, ProducerStep, Reachable;
    if who.AProducer? && who.p < |s.producers| {
      ProducerQueue(s, who.p, a);
    } else if who.TheConsumer? {
      ConsumerQueue(s, a);
    }
  }

  lemma ProducerQueue(s: State, p: nat, a: Action)
    requires Inv(s) && p < |s.producers|
    ensures var s' := ProducerStep(s, p, a);
      s'.base <= |s'.order| && Queue(s') == Queue(s) + (if s.producers[p].Exchange? then [s.producers[p].n] else [])
  {
    hide LinksOk, ProducersOk, Users, Free;
    InvProducer(s, p);
    var s' := ProducerStep(s, p, a);
    if s.producers[p].Exchange? {
      assert s'.order[s'.base..] == s.order[s.base..] + [s.producers[p].n];
      UsersOfSnoc(s.order[s.base..], s.producers[p].n);
    }
  }

  lemma UsersOfTail(s: State)
    requires Shape(s)
    ensures Queue(s) == (if s.tail == STUB then [] else [s.tail]) + Users(s.order[s.base + 1..])
  {
    assert s.order[s.base..] == [s.tail] + s.order[s.base + 1..];
    UsersOfConcat([s.tail], s.order[s.base + 1..]);
    UsersOfSnoc([], s.tail);
    assert [] + [s.tail] == [s.tail];
  }

  lemma ConsumerQueue(s: State, a: Action)
    requires Inv(s)
    ensures var s' := ConsumerStep(s, a);
      && s'.base <= |s'.order|
      && (s'.popped == s.popped ==>
            && Queue(s') == Queue(s)
            && (s'.consumer == s.consumer || !s'.consumer.Out? || s'.consumer == Out(Nothing)))
      && (s'.popped != s.popped ==> Queue(s) == [s.tail] + Queue(s') && s'.consumer == Out(Popped(s.tail)))
  {
    hide LinksOk, ProducersOk, Users;
    var s' := ConsumerStep(s, a);
    TailLink(s);
    UsersOfTail(s);
    if s.consumer.StubExchange? {
      assert s'.order[s'.base..] == s.order[s.base..] + [STUB];
      UsersOfSnoc(s.order[s.base..], STUB);
    }
  }

  lemma PoppedNodeLeaves(s: State, a: Action)
    requires Inv(s) && !s.consumer.Out? && ConsumerStep(s, a).consumer.Out?
    ensures var s' := ConsumerStep(s, a); s'.consumer.result.Popped? ==>
      && s'.consumer.result.n == s.tail != STUB
      && s'.order == s.order && s'.base == s.base + 1 && s'.producers == s.producers && |s'.next| == |s.next|
      && !Queued(s', s.tail)
  {
    hide LinksOk, ProducersOk;
    assert s.ticketOf[s.order[s.base]] == s.base;
  }

  /** A node a pop returns has no pending writer and may be pushed again. */
  lemma ReturnedNodeIsFree(s: State, a: Action)
    requires Reachable(s) && !s.consumer.Out?
    ensures var s' := Exec(s, TheConsumer, a);
      s'.consumer.Out? && s'.consumer.result.Popped? ==>
        var n := s'.consumer.result.n;
        && Free(s', n)
        && forall p :: 0 <= p < |s'.producers| && s'.producers[p].Link? ==> s'.producers[p].prev != n
  {
    hide Inv, ConsumerStep, Calm;
    ReachableInv(s);
    ConsumerStepInv(s, a);
    var s' := Exec(s, TheConsumer, a);
    InvShape(s);
    InvShape(s');
    if s'.consumer.Out? && s'.consumer.result.Popped? {
      PoppedNodeLeaves(s, a);
      forall p | 0 <= p < |s'.producers|
        ensures s'.producers[p] != Idle ==> s'.producers[p].n != s.tail
        ensures s'.producers[p].Link? ==> s'.producers[p].prev != s.tail
      {
        InvProducer(s, p);
        InvProducer(s', p);
        assert s.ticketOf[s.order[s.base]] == s.base;
      }
    }
  }

  /** A pop that returns nothing has met, or left at its last access, a moment
      with no user node or with a producer between its exchange and its link. */
  lemma NothingMeansCalm(s: State, a: Action)
    requires Inv(s) && !s.consumer.Out?
    ensures Exec(s, TheConsumer, a).consumer == Out(Nothing) ==> Exec(s, TheConsumer, a).calm
  {
    var s' := ConsumerStep(s, a);
    if s'.consumer == Out(Nothing) && s.next[s.tail].None? && (s.base + 1 < |s.order| || s.tail == STUB) {
      EmptyLinkIsCalm(s);
      assert Calm(s');
    }
  }

  ghost predicate CalmMoment(s: State) { s.base <= |s.order| && Calm(s) }

  /** The states of a run from its `j`-th on are all inside the current pop. */
  ghost predicate InsidePop(s: State, schedule: seq<(Agent, Action)>, j: nat) {
    && j <= |schedule|
    && (forall m {:trigger schedule[..m]} :: j <= m < |schedule| ==> !Run(s, schedule[..m]).consumer.Out?)
  }

  /** What `calm` means: some moment since the pop began was calm. */
  lemma {:induction false} CalmHasWitness(s: State, schedule: seq<(Agent, Action)>)
    requires !s.calm && Run(s, schedule).calm
    ensures exists j: nat :: InsidePop(s, schedule, j) && CalmMoment(Run(s, schedule[..j]))
    decreases |schedule|
  {
    hide ConsumerStep, ProducerStep;
    var n := |schedule|;
    assert schedule[..n] == schedule;
    var r := Run(s, schedule);
    if CalmMoment(r) {
      assert InsidePop(s, schedule, n);
    } else {
      var before := schedule[..n - 1];
      var (who, a) := schedule[n - 1];
      assert r == Exec(Run(s, before), who, a);
      CalmHasWitness(s, before);
      var j: nat :| InsidePop(s, before, j) && CalmMoment(Run(s, before[..j]));
      assert before[..j] == schedule[..j];
      forall m | j <= m < n
        ensures !Run(s, schedule[..m]).consumer.Out?
      {
        if m < n - 1 {
          assert before[..m] == schedule[..m];
        }
      }
      assert InsidePop(s, schedule, j);
    }
  }

  /** Over whole runs: if the last access makes a pop return nothing, then at
      some moment of that pop there was no user node or a push was half done. */
  lemma EmptyPopHasReason(nodeCount: nat, producerCount: nat, schedule: seq<(Agent, Action)>, a: Action)
    requires !Run(Initial(nodeCount, producerCount), schedule).consumer.Out?
    requires Run(Initial(nodeCount, producerCount), schedule + [(TheConsumer, a)]).consumer == Out(Nothing)
    ensures var s0 := Initial(nodeCount, producerCount); var all := schedule + [(TheConsumer, a)];
      exists j: nat :: InsidePop(s0, all, j) && CalmMoment(Run(s0, all[..j]))
  {
    hide Inv, ConsumerStep, ProducerStep, Calm;
    var s0 := Initial(nodeCount, producerCount);
    var all := schedule + [(TheConsumer, a)];
    InitialInv(nodeCount, producerCount);
    RunInv(s0, schedule);
    assert all[..|all| - 1] == schedule;
    assert Run(s0, all) == Exec(Run(s0, schedule), TheConsumer, a);
    NothingMeansCalm(Run(s0, schedule), a);
    CalmHasWitness(s0, all);
  }

  // ----- Whole calls -----

  /** A schedule that begins with `who` starting a call and in which `who` starts no
      other. */
  ghost predicate IsCall(schedule: seq<(Agent, Action)>, who: Agent, start: Action) {
    && |schedule| > 0 && schedule[0] == (who, start)
    && forall i :: 0 < i < |schedule| && schedule[i].0 == who ==> schedule[i].1.Go?
  }

  /** `s'` is where one call of `who`, finished or not, can bring `s` while everybody
      else runs. */
  ghost predicate CallRan(s: State, s': State, who: Agent, start: Action) {
    exists schedule :: IsCall(schedule, who, start) && s' == Run(s, schedule)
  }

  /** The run of `schedule` passes through a calm moment after its first step. */
  ghost predicate SawCalm(s: State, schedule: seq<(Agent, Action)>) {
    exists i :: 0 < i <= |schedule| && CalmMoment(Run(s, schedule[..i]))
  }

  /** `CallRan` of a pop through such a moment. */
  ghost predicate PopSawCalm(s: State, s': State) {
    exists schedule :: IsCall(schedule, TheConsumer, StartPop) && s' == Run(s, schedule) && SawCalm(s, schedule)
  }

  lemma {:induction false} RunAppend(s: State, x: seq<(Agent, Action)>, y: seq<(Agent, Action)>)
    ensures Run(s, x + y) == Run(Run(s, x), y)
    decreases |y|
  {
    hide Exec;
    if |y| == 0 {
      assert x + y == x;
    } else {
      RunAppend(s, x, y[..|y| - 1]);
      assert (x + y)[..|x + y| - 1] == x + y[..|y| - 1];
    }
  }

  lemma ConsumerMoves(s: State, who: Agent, a: Action)
    requires Inv(s)
    ensures var s' := Exec(s, who, a);
      && (s'.calm ==> (s.calm && !s.consumer.Out?) || CalmMoment(s'))
      && (s'.consumer == Out(Nothing) ==> s'.calm || (s.consumer == Out(Nothing) && (who.AProducer? || !a.StartPop?)))
      && (who.TheConsumer? && s.consumer.Out? && a.StartPop? ==> s'.consumer == LoadNext)
  {
    if who.TheConsumer? && !s.consumer.Out? {
      NothingMeansCalm(s, a);
    }
    hide Inv, Calm, Free;
  }

  /** A pop that returns nothing passed through a calm moment. */
  lemma {:induction false} PopCall(s: State, schedule: seq<(Agent, Action)>)
    requires Inv(s) && s.consumer.Out? && IsCall(schedule, TheConsumer, StartPop)
    ensures Inv(Run(s, schedule))
    ensures Run(s, schedule).calm || Run(s, schedule).consumer == Out(Nothing) ==> SawCalm(s, schedule)
    decreases |schedule|
  {
    hide Inv, Exec, CalmMoment;
    var n := |schedule| - 1;
    var (who, a) := schedule[n];
    var before := schedule[..n];
    var m := Run(s, before);
    RunInv(s, before);
    RunInv(s, schedule);
    ConsumerMoves(m, who, a);
    assert schedule[..n + 1] == schedule;
    if n == 0 {
      assert m == s;
    } else {
      PopCall(s, before);
      if SawCalm(s, before) {
        var i :| 0 < i <= |before| && CalmMoment(Run(s, before[..i]));
        assert before[..i] == schedule[..i];
      }
    }
  }
}
