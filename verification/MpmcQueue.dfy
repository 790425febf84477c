/** The bounded multi-producer/multi-consumer ring (libs/mpmc_queue.hpp) as a
    state machine: any number of threads, one transition per atomic access,
    sequentially consistent interleaving, tickets as unbounded counters. */
module MpmcQueue {
  import opened Common

  datatype Cell<T> = Cell(seqno: nat, data: Option<T>)

  /** What a finished call returned. */
  datatype Outcome<T> = NoCall | Enqueued(ok: bool) | Dequeued(result: Option<T>)

  /** Program counter and locals of one thread; each constructor but `Done` names
      the atomic access the thread performs next. */
  datatype Local<T> =
    | Done(outcome: Outcome<T>)
    | EnqLoadPos(v: T)
    | EnqLoadSeq(v: T, pos: nat)
    | EnqCas(v: T, pos: nat)
    | EnqWrite(v: T, pos: nat)
    | EnqPublish(v: T, pos: nat)
    | DeqLoadPos
    | DeqLoadSeq(pos: nat)
    | DeqCas(pos: nat)
    | DeqRead(pos: nat)
    | DeqPublish(pos: nat, x: T)

  /** `vals`, `published`, `released` and `got` are history: the value of each
      enqueue ticket, the tickets whose sequence store has happened on either
      side, and the (ticket, value) pairs that dequeues have returned. */
  datatype State<T> = State(
    cells: seq<Cell<T>>,
    enqPos: nat,
    deqPos: nat,
    threads: seq<Local<T>>,
    vals: seq<T>,
    published: set<nat>,
    released: set<nat>,
    got: seq<(nat, T)>)

  /** The scheduler's choices: which call an idle thread starts, and whether a
      weak compare-exchange fails spuriously. */
  datatype Action<T> = StartEnqueue(v: T) | StartDequeue | Go | FailSpuriously

  function Initial<T>(size: nat, threadCount: nat): State<T>
  {
    State(seq(size, (i: nat) => Cell(i, None)), 0, 0,
          seq(threadCount, _ => Done(NoCall)), [], {}, {}, [])
  }

  /** Sequence number and data of the cell that ticket `k` uses. */
  function Sq<T>(cells: seq<Cell<T>>, k: nat): nat
    requires |cells| > 0
  {
    cells[Slot(k, |cells|)].seqno
  }

  function Data<T>(cells: seq<Cell<T>>, k: nat): Option<T>
    requires |cells| > 0
  {
    cells[Slot(k, |cells|)].data
  }

  function At<T>(s: State<T>, t: nat, l: Local<T>): State<T>
    requires t < |s.threads|
  {
    s.(threads := s.threads[t := l])
  }

  /** The winning compare-exchange of an enqueue: takes the next ticket. */
  function TakeEnqueueTicket<T>(s: State<T>, t: nat, v: T): State<T>
    requires t < |s.threads|
  {
    At(s, t, EnqWrite(v, s.enqPos)).(enqPos := s.enqPos + 1, vals := s.vals + [v])
  }

  function WriteData<T>(s: State<T>, t: nat, v: T, pos: nat): State<T>
    requires t < |s.threads| && |s.cells| > 0
  {
    var c := s.cells[Slot(pos, |s.cells|)];
    At(s, t, EnqPublish(v, pos)).(cells := s.cells[Slot(pos, |s.cells|) := c.(data := Some(v))])
  }

  function Publish<T>(s: State<T>, t: nat, pos: nat): State<T>
    requires t < |s.threads| && |s.cells| > 0
  {
    var c := s.cells[Slot(pos, |s.cells|)];
    At(s, t, Done(Enqueued(true))).(
      cells := s.cells[Slot(pos, |s.cells|) := c.(seqno := pos + 1)],
      published := s.published + {pos})
  }

  /** The winning compare-exchange of a dequeue. */
  function TakeDequeueTicket<T>(s: State<T>, t: nat): State<T>
    requires t < |s.threads|
  {
    At(s, t, DeqRead(s.deqPos)).(deqPos := s.deqPos + 1)
  }

  function Release<T>(s: State<T>, t: nat, pos: nat, x: T): State<T>
    requires t < |s.threads| && |s.cells| > 0
  {
    var c := s.cells[Slot(pos, |s.cells|)];
    At(s, t, Done(Dequeued(Some(x)))).(
      cells := s.cells[Slot(pos, |s.cells|) := c.(seqno := pos + |s.cells|)],
      released := s.released + {pos},
      got := s.got + [(pos, x)])
  }

  /** One atomic access of thread `t`. */
  function Exec<T>(s: State<T>, t: nat, a: Action<T>): State<T>
    requires t < |s.threads| && |s.cells| > 0
  {
    match s.threads[t]
    case Done(_) =>
      (match a
       case StartEnqueue(v) => At(s, t, EnqLoadPos(v))
       case StartDequeue => At(s, t, DeqLoadPos)
       case _ => s)
    case EnqLoadPos(v) => At(s, t, EnqLoadSeq(v, s.enqPos))
    case EnqLoadSeq(v, pos) =>
      var seqno := Sq(s.cells, pos);
      if seqno == pos then At(s, t, EnqCas(v, pos))
      else if seqno < pos then At(s, t, Done(Enqueued(false)))
      else At(s, t, EnqLoadPos(v))
    case EnqCas(v, pos) =>
      if s.enqPos == pos && !a.FailSpuriously? then TakeEnqueueTicket(s, t, v)
      else At(s, t, EnqLoadSeq(v, s.enqPos))
    case EnqWrite(v, pos) => WriteData(s, t, v, pos)
    case EnqPublish(v, pos) => Publish(s, t, pos)
    case DeqLoadPos => At(s, t, DeqLoadSeq(s.deqPos))
    case DeqLoadSeq(pos) =>
      var seqno := Sq(s.cells, pos);
      if seqno == pos + 1 then At(s, t, DeqCas(pos))
      else if seqno < pos + 1 then At(s, t, Done(Dequeued(None)))
      else At(s, t, DeqLoadPos)
    case DeqCas(pos) =>
      if s.deqPos == pos && !a.FailSpuriously? then TakeDequeueTicket(s, t)
      else At(s, t, DeqLoadSeq(s.deqPos))
    case DeqRead(pos) =>
      (match Data(s.cells, pos)
       case Some(x) => At(s, t, DeqPublish(pos, x))
       case None => s)
    case DeqPublish(pos, x) => Release(s, t, pos, x)
  }

  /** The state after a schedule, a sequence of (thread, choice) pairs; a pair
      naming no thread is skipped. */
  function Run<T>(s: State<T>, schedule: seq<(nat, Action<T>)>): State<T>
    requires |s.cells| > 0
    decreases |schedule|
  {
    if |schedule| == 0 then s
    else
      var r := Run(s, schedule[..|schedule| - 1]);
      var (t, a) := schedule[|schedule| - 1];
      if t < |r.threads| && |r.cells| > 0 then Exec(r, t, a) else r
  }

  // ----- The invariant -----

  predicate Shape<T>(s: State<T>) {
    && |s.cells| >= 2
    && s.deqPos <= s.enqPos <= s.deqPos + |s.cells|
    && |s.vals| == s.enqPos
  }

  /** Tickets handed to enqueuers and not yet to dequeuers: being written, or
      holding exactly the value of that ticket. */
  ghost predicate FullCells<T>(s: State<T>)
    requires Shape(s)
  {
    forall k :: s.deqPos <= k < s.enqPos ==>
      Sq(s.cells, k) == k || (Sq(s.cells, k) == k + 1 && Data(s.cells, k) == Some(s.vals[k]))
  }

  /** The other cells, named by the ticket that will use them next: free, or
      still being read for the ticket one lap earlier. */
  ghost predicate FreeCells<T>(s: State<T>)
    requires Shape(s)
  {
    forall k :: s.enqPos <= k < s.deqPos + |s.cells| ==>
      Sq(s.cells, k) == k || (k >= |s.cells| && Sq(s.cells, k) + |s.cells| == k + 1)
  }

  predicate EnqOwner<T>(l: Local<T>) { l.EnqWrite? || l.EnqPublish? }

  predicate DeqOwner<T>(l: Local<T>) { l.DeqRead? || l.DeqPublish? }

  predicate DequeuePc<T>(l: Local<T>) { l.DeqLoadPos? || l.DeqLoadSeq? || l.DeqCas? || DeqOwner(l) }

  /** A thread between its winning compare-exchange and its sequence store. */
  predicate Owner<T>(l: Local<T>) { EnqOwner(l) || DeqOwner(l) }

  ghost predicate ThreadOk<T>(s: State<T>, l: Local<T>)
    requires Shape(s)
  {
    match l
    case EnqLoadSeq(_, pos) => pos <= s.enqPos
    case EnqCas(_, pos) => pos <= s.enqPos && pos <= Sq(s.cells, pos)
    case EnqWrite(v, pos) => s.deqPos <= pos < s.enqPos && Sq(s.cells, pos) == pos && s.vals[pos] == v
    case EnqPublish(v, pos) =>
      s.deqPos <= pos < s.enqPos && Sq(s.cells, pos) == pos && s.vals[pos] == v && Data(s.cells, pos) == Some(v)
    case DeqLoadSeq(pos) => pos <= s.deqPos
    case DeqCas(pos) => pos <= s.deqPos && pos + 1 <= Sq(s.cells, pos)
    case DeqRead(pos) =>
      && pos < s.deqPos && s.enqPos <= pos + |s.cells|
      && Sq(s.cells, pos) == pos + 1 && Data(s.cells, pos) == Some(s.vals[pos])
    case DeqPublish(pos, x) =>
      pos < s.deqPos && s.enqPos <= pos + |s.cells| && Sq(s.cells, pos) == pos + 1 && x == s.vals[pos]
    case _ => true
  }

  ghost predicate ThreadsOk<T>(s: State<T>)
    requires Shape(s)
  {
    forall t :: 0 <= t < |s.threads| ==> ThreadOk(s, s.threads[t])
  }

  /** No ticket has two owners on the same side. */
  ghost predicate TicketsDistinct<T>(s: State<T>) {
    && (forall t, u :: 0 <= t < u < |s.threads| && EnqOwner(s.threads[t]) && EnqOwner(s.threads[u]) ==>
          s.threads[t].pos != s.threads[u].pos)
    && (forall t, u :: 0 <= t < u < |s.threads| && DeqOwner(s.threads[t]) && DeqOwner(s.threads[u]) ==>
          s.threads[t].pos != s.threads[u].pos)
  }

  /** A ticket has been published or released exactly when its cell's sequence
      number says so. */
  ghost predicate HistoryOk<T>(s: State<T>)
    requires Shape(s)
  {
    && (forall k: nat :: k in s.published <==> k < s.enqPos && Sq(s.cells, k) > k)
    && (forall k: nat :: k < s.deqPos ==> Sq(s.cells, k) > k)
    && (forall k: nat :: k in s.released <==> k < s.deqPos && Sq(s.cells, k) >= k + |s.cells|)
  }

  ghost predicate ResultsOk<T>(s: State<T>)
    requires Shape(s)
  {
    && (forall i :: 0 <= i < |s.got| ==>
          s.got[i].0 in s.released && s.got[i].0 < s.deqPos && s.got[i].1 == s.vals[s.got[i].0])
    && (forall i, j :: 0 <= i < j < |s.got| ==> s.got[i].0 != s.got[j].0)
  }

  ghost predicate Inv<T>(s: State<T>) {
    && Shape(s)
    && FullCells(s)
    && FreeCells(s)
    && ThreadsOk(s)
    && TicketsDistinct(s)
    && HistoryOk(s)
    && ResultsOk(s)
  }

  // ----- Every step keeps the invariant -----

  /** What a store to ticket `p`'s cell does to the other tickets' views: none
      within a lap sees it, and any other sees either nothing or the new number. */
  lemma Stored<T>(cells: seq<Cell<T>>, p: nat, c: Cell<T>)
    requires |cells| > 0
    ensures var n := |cells|; var after := cells[Slot(p, n) := c];
      && Sq(after, p) == c.seqno && Data(after, p) == c.data
      && (forall k: nat {:trigger Sq(after, k)} {:trigger Data(after, k)} ::
            if p < k < p + n || k < p < k + n then
              Sq(after, k) == Sq(cells, k) && Data(after, k) == Data(cells, k)
            else
              (Sq(after, k) == Sq(cells, k) && Data(after, k) == Data(cells, k))
              || (Sq(after, k) == c.seqno && Sq(cells, k) == Sq(cells, p)))
  {
    LapDistinct(p, |cells|);
  }

  lemma InitialInv<T>(size: nat, threadCount: nat)
    requires size >= 2
    ensures Inv(Initial<T>(size, threadCount))
  {
    var s := Initial<T>(size, threadCount);
    forall k: nat | k < size
      ensures Sq(s.cells, k) == k
    {
      assert Slot(k, size) == k;
    }
  }

  /** The threads after a step of thread `t`, given that the others' assertions
      survive it and that `t` owns no ticket another thread owns. */
  lemma ThreadsStep<T>(s: State<T>, s': State<T>, t: nat)
    requires Shape(s') && TicketsDistinct(s)
    requires t < |s.threads| && |s'.threads| == |s.threads| && s'.threads == s.threads[t := s'.threads[t]]
    requires ThreadOk(s', s'.threads[t])
    requires forall u :: 0 <= u < |s.threads| && u != t ==> ThreadOk(s', s.threads[u])
    requires EnqOwner(s'.threads[t]) ==>
      forall u :: 0 <= u < |s.threads| && u != t && EnqOwner(s.threads[u]) ==> s.threads[u].pos != s'.threads[t].pos
    requires DeqOwner(s'.threads[t]) ==>
      forall u :: 0 <= u < |s.threads| && u != t && DeqOwner(s.threads[u]) ==> s.threads[u].pos != s'.threads[t].pos
    ensures ThreadsOk(s') && TicketsDistinct(s')
  {
    assert forall u :: 0 <= u < |s.threads| && u != t ==> s'.threads[u] == s.threads[u];
  }

  /** A step that only moves one thread. */
  lemma LocalStep<T>(s: State<T>, t: nat, l: Local<T>)
    requires Inv(s) && t < |s.threads| && ThreadOk(s, l)
    requires EnqOwner(l) ==> EnqOwner(s.threads[t]) && s.threads[t].pos == l.pos
    requires DeqOwner(l) ==> DeqOwner(s.threads[t]) && s.threads[t].pos == l.pos
    ensures Inv(At(s, t, l))
  {
    var s' := At(s, t, l);
    assert forall u :: 0 <= u < |s.threads| ==> ThreadOk(s, s.threads[u]) ==> ThreadOk(s', s.threads[u]);
    ThreadsStep(s, s', t);
  }

  /** The sequence number an enqueuer loaded before its winning compare-exchange
      is still the ticket when the exchange succeeds. */
  lemma EnqueueTicketValid<T>(s: State<T>, t: nat)
    requires Inv(s) && t < |s.threads|
    requires s.threads[t].EnqCas? && s.threads[t].pos == s.enqPos
    ensures Sq(s.cells, s.enqPos) == s.enqPos && s.enqPos < s.deqPos + |s.cells|
  {
    var n := |s.cells|;
    assert ThreadOk(s, s.threads[t]);
    assert Slot(s.deqPos + n, n) == Slot(s.deqPos, n);
    assert Sq(s.cells, s.deqPos + n) == Sq(s.cells, s.deqPos);
  }

  /** The same for a dequeuer: the loaded number is still the ticket plus one. */
  lemma DequeueTicketValid<T>(s: State<T>, t: nat)
    requires Inv(s) && t < |s.threads|
    requires s.threads[t].DeqCas? && s.threads[t].pos == s.deqPos
    ensures Sq(s.cells, s.deqPos) == s.deqPos + 1 && s.deqPos < s.enqPos
  {
    assert ThreadOk(s, s.threads[t]);
  }

  lemma TakeEnqueueTicketInv<T>(s: State<T>, t: nat)
    requires Inv(s) && t < |s.threads|
    requires s.threads[t].EnqCas? && s.threads[t].pos == s.enqPos
    ensures Inv(TakeEnqueueTicket(s, t, s.threads[t].v))
  {
    EnqueueTicketValid(s, t);
    var s' := TakeEnqueueTicket(s, t, s.threads[t].v);
    var n := |s.cells|;
    forall u | 0 <= u < |s.threads| && u != t
      ensures ThreadOk(s', s.threads[u])
    {
      assert ThreadOk(s, s.threads[u]);
      if DeqOwner(s.threads[u]) {
        assert Slot(s.threads[u].pos + n, n) == Slot(s.threads[u].pos, n);
      }
    }
    ThreadsStep(s, s', t);
  }

  lemma TakeDequeueTicketInv<T>(s: State<T>, t: nat)
    requires Inv(s) && t < |s.threads|
    requires s.threads[t].DeqCas? && s.threads[t].pos == s.deqPos
    ensures Inv(TakeDequeueTicket(s, t))
  {
    DequeueTicketValid(s, t);
    var s' := TakeDequeueTicket(s, t);
    var n, d := |s.cells|, s.deqPos;
    assert Slot(d + n, n) == Slot(d, n);
    forall u | 0 <= u < |s.threads| && u != t
      ensures ThreadOk(s', s.threads[u])
    {
      assert ThreadOk(s, s.threads[u]);
    }
    ThreadsStep(s, s', t);
    assert FreeCells(s') by {
      assert Sq(s'.cells, d + n) + n == d + n + 1;
    }
    assert d !in s.released;
  }

  lemma WriteDataRing<T>(s: State<T>, t: nat)
    requires Inv(s) && t < |s.threads| && s.threads[t].EnqWrite?
    ensures var s' := WriteData(s, t, s.threads[t].v, s.threads[t].pos);
      Shape(s') && FullCells(s') && FreeCells(s') && HistoryOk(s')
  {
    var n, p := |s.cells|, s.threads[t].pos;
    var s' := WriteData(s, t, s.threads[t].v, s.threads[t].pos);
    assert ThreadOk(s, s.threads[t]);
    Stored(s.cells, p, s'.cells[Slot(p, n)]);
  }

  lemma WriteDataInv<T>(s: State<T>, t: nat)
    requires Inv(s) && t < |s.threads| && s.threads[t].EnqWrite?
    ensures Inv(WriteData(s, t, s.threads[t].v, s.threads[t].pos))
  {
    var n, p := |s.cells|, s.threads[t].pos;
    var s' := WriteData(s, t, s.threads[t].v, s.threads[t].pos);
    WriteDataRing(s, t);
    assert ThreadOk(s, s.threads[t]);
    Stored(s.cells, p, s'.cells[Slot(p, n)]);
    forall u | 0 <= u < |s.threads| && u != t
      ensures ThreadOk(s', s.threads[u])
    {
      assert ThreadOk(s, s.threads[u]);
    }
    ThreadsStep(s, s', t);
  }

  lemma PublishRing<T>(s: State<T>, t: nat)
    requires Inv(s) && t < |s.threads| && s.threads[t].EnqPublish?
    ensures var s' := Publish(s, t, s.threads[t].pos); Shape(s') && FullCells(s') && FreeCells(s') && HistoryOk(s')
  {
    var n, p := |s.cells|, s.threads[t].pos;
    var s' := Publish(s, t, s.threads[t].pos);
    assert ThreadOk(s, s.threads[t]);
    Stored(s.cells, p, s'.cells[Slot(p, n)]);
  }

  lemma PublishInv<T>(s: State<T>, t: nat)
    requires Inv(s) && t < |s.threads| && s.threads[t].EnqPublish?
    ensures Inv(Publish(s, t, s.threads[t].pos))
  {
    var n, p := |s.cells|, s.threads[t].pos;
    var s' := Publish(s, t, s.threads[t].pos);
    PublishRing(s, t);
    assert ThreadOk(s, s.threads[t]);
    Stored(s.cells, p, s'.cells[Slot(p, n)]);
    forall u | 0 <= u < |s.threads| && u != t
      ensures ThreadOk(s', s.threads[u])
    {
      assert ThreadOk(s, s.threads[u]);
    }
    ThreadsStep(s, s', t);
  }

  lemma ReleaseRing<T>(s: State<T>, t: nat)
    requires Inv(s) && t < |s.threads| && s.threads[t].DeqPublish?
    ensures var s' := Release(s, t, s.threads[t].pos, s.threads[t].x); Shape(s') && FullCells(s') && FreeCells(s')
  {
    var n, p := |s.cells|, s.threads[t].pos;
    var s' := Release(s, t, s.threads[t].pos, s.threads[t].x);
    assert ThreadOk(s, s.threads[t]);
    Stored(s.cells, p, s'.cells[Slot(p, n)]);
    assert Slot(p + n, n) == Slot(p, n);
    LapDistinct(p + n, n);
    assert forall k: nat {:trigger Sq(s'.cells, k)} :: p + n < k < p + 2 * n ==> Sq(s'.cells, k) == Sq(s.cells, k);
  }

  lemma ReleaseHistory<T>(s: State<T>, t: nat)
    requires Inv(s) && t < |s.threads| && s.threads[t].DeqPublish?
    ensures HistoryOk(Release(s, t, s.threads[t].pos, s.threads[t].x))
  {
    var n, p := |s.cells|, s.threads[t].pos;
    var s' := Release(s, t, p, s.threads[t].x);
    assert ThreadOk(s, s.threads[t]);
    Stored(s.cells, p, s'.cells[Slot(p, n)]);
  }

  lemma ReleaseInv<T>(s: State<T>, t: nat)
    requires Inv(s) && t < |s.threads| && s.threads[t].DeqPublish?
    ensures Inv(Release(s, t, s.threads[t].pos, s.threads[t].x))
  {
    var n, p := |s.cells|, s.threads[t].pos;
    var s' := Release(s, t, s.threads[t].pos, s.threads[t].x);
    ReleaseRing(s, t);
    ReleaseHistory(s, t);
    assert ThreadOk(s, s.threads[t]);
    Stored(s.cells, p, s'.cells[Slot(p, n)]);
    forall u | 0 <= u < |s.threads| && u != t
      ensures ThreadOk(s', s.threads[u])
    {
      assert ThreadOk(s, s.threads[u]);
    }
    ThreadsStep(s, s', t);
  }

  lemma InvShape<T>(s: State<T>)
    requires Inv(s)
    ensures Shape(s)
  {
  }

  lemma InvThread<T>(s: State<T>, t: nat)
    requires Inv(s) && t < |s.threads|
    ensures Shape(s) && ThreadOk(s, s.threads[t])
  {
  }

  lemma EnqueueStepInv<T>(s: State<T>, t: nat, a: Action<T>)
    requires Inv(s) && t < |s.threads| && |s.cells| > 0
    requires !s.threads[t].Done? && !DequeuePc(s.threads[t])
    ensures Inv(Exec(s, t, a))
  {
    hide Inv, Sq, TakeEnqueueTicket, WriteData, Publish;
    InvThread(s, t);
    match s.threads[t]
    case EnqLoadPos(v) => LocalStep(s, t, EnqLoadSeq(v, s.enqPos));
    case EnqLoadSeq(v, pos) =>
      LocalStep(s, t, if Sq(s.cells, pos) == pos then EnqCas(v, pos)
                      else if Sq(s.cells, pos) < pos then Done(Enqueued(false)) else EnqLoadPos(v));
    case EnqCas(v, pos) =>
      if s.enqPos == pos && !a.FailSpuriously? {
        TakeEnqueueTicketInv(s, t);
      } else {
        LocalStep(s, t, EnqLoadSeq(v, s.enqPos));
      }
    case EnqWrite(v, pos) => WriteDataInv(s, t);
    case EnqPublish(v, pos) => PublishInv(s, t);
  }

  lemma DequeueStepInv<T>(s: State<T>, t: nat, a: Action<T>)
    requires Inv(s) && t < |s.threads| && |s.cells| > 0 && DequeuePc(s.threads[t])
    ensures Inv(Exec(s, t, a))
  {
    hide Inv, Sq, Data, TakeDequeueTicket, Release;
    InvThread(s, t);
    match s.threads[t]
    case DeqLoadPos => LocalStep(s, t, DeqLoadSeq(s.deqPos));
    case DeqLoadSeq(pos) =>
      LocalStep(s, t, if Sq(s.cells, pos) == pos + 1 then DeqCas(pos)
                      else if Sq(s.cells, pos) < pos + 1 then Done(Dequeued(None)) else DeqLoadPos);
    case DeqCas(pos) =>
      if s.deqPos == pos && !a.FailSpuriously? {
        TakeDequeueTicketInv(s, t);
      } else {
        LocalStep(s, t, DeqLoadSeq(s.deqPos));
      }
    case DeqRead(pos) => LocalStep(s, t, DeqPublish(pos, Data(s.cells, pos).value));
    case DeqPublish(pos, x) => ReleaseInv(s, t);
  }

  lemma ExecInv<T>(s: State<T>, t: nat, a: Action<T>)
    requires Inv(s) && t < |s.threads| && |s.cells| > 0
    ensures Inv(Exec(s, t, a))
  {
    hide Inv;
    InvThread(s, t);
    if DequeuePc(s.threads[t]) {
      DequeueStepInv(s, t, a);
    } else if !s.threads[t].Done? {
      EnqueueStepInv(s, t, a);
    } else {
      match a {
        case StartEnqueue(v) => LocalStep(s, t, EnqLoadPos(v));
        case StartDequeue => LocalStep(s, t, DeqLoadPos);
        case _ =>
      }
    }
  }

  lemma {:induction false} RunInv<T>(s: State<T>, schedule: seq<(nat, Action<T>)>)
    requires Inv(s)
    ensures Inv(Run(s, schedule))
    decreases |schedule|
  {
    hide Inv, Exec;
    InvShape(s);
    if |schedule| > 0 {
      RunInv(s, schedule[..|schedule| - 1]);
      var r := Run(s, schedule[..|schedule| - 1]);
      var (t, a) := schedule[|schedule| - 1];
      if t < |r.threads| && |r.cells| > 0 {
        ExecInv(r, t, a);
      }
    }
  }

  /** The states that some run of some ring of legal size reaches. */
  ghost predicate Reachable<T(!new)>(s: State<T>) {
    exists size: nat, threadCount: nat, schedule: seq<(nat, Action<T>)> ::
      size >= 2 && s == Run(Initial(size, threadCount), schedule)
  }

  lemma ReachableInv<T(!new)>(s: State<T>)
    requires Reachable(s)
    ensures Inv(s)
  {
    hide Inv;
    var size: nat, threadCount: nat, schedule: seq<(nat, Action<T>)> :|
      size >= 2 && s == Run(Initial(size, threadCount), schedule);
    InitialInv<T>(size, threadCount);
    RunInv(Initial(size, threadCount), schedule);
  }

  // ----- What every run guarantees -----

  /** At any moment each cell has at most one thread between its winning
      compare-exchange and its sequence store. */
  lemma CellHasOneOwner<T(!new)>(s: State<T>, t: nat, u: nat)
    requires Reachable(s)
    requires t < u < |s.threads| && Owner(s.threads[t]) && Owner(s.threads[u])
    ensures |s.cells| > 0 && Slot(s.threads[t].pos, |s.cells|) != Slot(s.threads[u].pos, |s.cells|)
  {
    ReachableInv(s);
    assert ThreadOk(s, s.threads[t]) && ThreadOk(s, s.threads[u]);
    LapDistinct(s.threads[t].pos, |s.cells|);
  }

  /** A winning compare-exchange finds the cell's sequence number as the thread
      loaded it: the ticket for an enqueuer, the ticket plus one for a dequeuer. */
  lemma WinnersLoadIsCurrent<T(!new)>(s: State<T>, t: nat)
    requires Reachable(s) && t < |s.threads| && |s.cells| > 0
    ensures s.threads[t].EnqCas? && s.threads[t].pos == s.enqPos ==> Sq(s.cells, s.enqPos) == s.enqPos
    ensures s.threads[t].DeqCas? && s.threads[t].pos == s.deqPos ==> Sq(s.cells, s.deqPos) == s.deqPos + 1
  {
    ReachableInv(s);
    if s.threads[t].EnqCas? && s.threads[t].pos == s.enqPos {
      EnqueueTicketValid(s, t);
    } else if s.threads[t].DeqCas? && s.threads[t].pos == s.deqPos {
      DequeueTicketValid(s, t);
    }
  }

  /** The ring never holds more tickets than cells; every dequeue returns the
      value of its own ticket; and no ticket is returned twice. */
  lemma TicketsMatch<T(!new)>(s: State<T>)
    requires Reachable(s)
    ensures s.deqPos <= s.enqPos == |s.vals| <= s.deqPos + |s.cells|
    ensures forall i :: 0 <= i < |s.got| ==> s.got[i].0 < s.deqPos && s.got[i].1 == s.vals[s.got[i].0]
    ensures forall i, j :: 0 <= i < j < |s.got| ==> s.got[i].0 != s.got[j].0
  {
    ReachableInv(s);
  }

  /** A call that returns false does so only when, at its sequence load, the
      ticket one lap back had not been released (enqueue) or its own ticket had
      not been published (dequeue). */
  lemma FalseMeansFullOrEmpty<T(!new)>(s: State<T>, t: nat, a: Action<T>)
    requires Reachable(s) && t < |s.threads| && |s.cells| > 0
    ensures s.threads[t].EnqLoadSeq? && Exec(s, t, a).threads[t] == Done(Enqueued(false)) ==>
      var pos := s.threads[t].pos; pos >= |s.cells| && pos - |s.cells| !in s.released
    ensures s.threads[t].DeqLoadSeq? && Exec(s, t, a).threads[t] == Done(Dequeued(None)) ==>
      s.threads[t].pos !in s.published
  {
    ReachableInv(s);
    InvThread(s, t);
    if s.threads[t].EnqLoadSeq? {
      var n, pos := |s.cells|, s.threads[t].pos;
      var q := Sq(s.cells, pos);
      if q < pos && pos >= n {
        assert Slot(pos, n) == Slot(pos - n, n);
        assert q == Sq(s.cells, pos - n);
      }
    }
  }

  // ----- Whole calls -----

  /** A schedule that begins with thread `t` starting a call and in which `t` starts no
      other. */
  ghost predicate IsCall<T(!new)>(schedule: seq<(nat, Action<T>)>, t: nat, start: Action<T>) {
    && |schedule| > 0 && schedule[0] == (t, start)
    && forall i :: 0 < i < |schedule| && schedule[i].0 == t ==> schedule[i].1.Go? || schedule[i].1.FailSpuriously?
  }

  /** `s'` is where one call of `t`, finished or not, can bring `s` while the other
      threads run. */
  ghost predicate CallRan<T(!new)>(s: State<T>, s': State<T>, t: nat, start: Action<T>) {
    |s.cells| > 0 && exists schedule :: IsCall(schedule, t, start) && s' == Run(s, schedule)
  }

  /** The ticket one lap before the next one has not been handed back. */
  ghost predicate Crowded<T>(s: State<T>) {
    |s.cells| <= s.enqPos && s.enqPos - |s.cells| !in s.released
  }

  /** The next ticket to dequeue has not been published. */
  ghost predicate Starved<T>(s: State<T>) {
    s.deqPos !in s.published
  }

  /** The run of `schedule` passes through a crowded (starved) state. */
  ghost predicate SawCrowded<T>(s: State<T>, schedule: seq<(nat, Action<T>)>)
    requires |s.cells| > 0
  {
    exists i :: 0 <= i <= |schedule| && Crowded(Run(s, schedule[..i]))
  }

  ghost predicate SawStarved<T>(s: State<T>, schedule: seq<(nat, Action<T>)>)
    requires |s.cells| > 0
  {
    exists i :: 0 <= i <= |schedule| && Starved(Run(s, schedule[..i]))
  }

  /** The same for a call that answers no: the run passes through a state that
      justifies it. */
  ghost predicate RefusedCall<T(!new)>(s: State<T>, s': State<T>, t: nat, start: Action<T>) {
    && |s.cells| > 0
    && exists schedule :: IsCall(schedule, t, start) && s' == Run(s, schedule)
         && (if start.StartEnqueue? then SawCrowded(s, schedule) else SawStarved(s, schedule))
  }

  lemma {:induction false} RunAppend<T>(s: State<T>, x: seq<(nat, Action<T>)>, y: seq<(nat, Action<T>)>)
    requires |s.cells| > 0 && |Run(s, x).cells| > 0
    ensures Run(s, x + y) == Run(Run(s, x), y)
    decreases |y|
  {
    hide Exec;
    if |y| == 0 {
      assert x + y == x;
    } else {
      RunAppend(s, x, y[..|y| - 1]);
      assert (x + y)[..|x + y| - 1] == x + y[..|y| - 1];
    }
  }

  /** How far a call of enqueue(v) has come after `schedule`. */
  ghost predicate EnqueueSoFar<T>(s: State<T>, schedule: seq<(nat, Action<T>)>, l: Local<T>, s': State<T>, v: T)
    requires |s.cells| > 0
  {
    match l
    case EnqLoadPos(w) => w == v
    case EnqLoadSeq(w, _) => w == v
    case EnqCas(w, _) => w == v
    case EnqWrite(w, pos) => w == v && |s.vals| <= pos < |s'.vals| && s'.vals[pos] == v
    case EnqPublish(w, pos) => w == v && |s.vals| <= pos < |s'.vals| && s'.vals[pos] == v
    case Done(Enqueued(true)) => exists k :: |s.vals| <= k < |s'.vals| && s'.vals[k] == v && k in s'.published
    case Done(Enqueued(false)) => SawCrowded(s, schedule)
    case _ => false
  }

  ghost predicate DequeueSoFar<T>(s: State<T>, schedule: seq<(nat, Action<T>)>, l: Local<T>, s': State<T>)
    requires |s.cells| > 0
  {
    match l
    case DeqLoadPos => true
    case DeqLoadSeq(_) => true
    case DeqCas(_) => true
    case DeqRead(pos) => s.deqPos <= pos < s'.deqPos
    case DeqPublish(pos, x) => s.deqPos <= pos < s'.deqPos && pos < |s'.vals| && x == s'.vals[pos]
    case Done(Dequeued(Some(x))) => exists k :: s.deqPos <= k < |s'.vals| && x == s'.vals[k] && (k, x) in s'.got
    case Done(Dequeued(None)) => SawStarved(s, schedule)
    case _ => false
  }

  /** What one step leaves of the history. */
  lemma HistoryGrows<T>(s: State<T>, t: nat, a: Action<T>)
    requires Inv(s) && t < |s.threads|
    ensures var s' := Exec(s, t, a);
      && |s'.threads| == |s.threads| && (forall u :: 0 <= u < |s.threads| && u != t ==> s'.threads[u] == s.threads[u])
      && s.vals <= s'.vals && s.deqPos <= s'.deqPos && s.published <= s'.published && s.got <= s'.got
  {
    hide Sq, Data, Slot, FullCells, FreeCells, ThreadOk, HistoryOk, ResultsOk, TicketsDistinct;
  }

  /** A refusal at the sequence load finds the ring crowded (starved) at that instant. */
  lemma RefusedNow<T>(s: State<T>, t: nat)
    requires Inv(s) && t < |s.threads|
    ensures s.threads[t].EnqLoadSeq? && Sq(s.cells, s.threads[t].pos) < s.threads[t].pos ==> Crowded(s)
    ensures s.threads[t].DeqLoadSeq? && Sq(s.cells, s.threads[t].pos) < s.threads[t].pos + 1 ==> Starved(s)
  {
    InvThread(s, t);
    if s.threads[t].EnqLoadSeq? && Sq(s.cells, s.threads[t].pos) < s.threads[t].pos {
      var n, pos := |s.cells|, s.threads[t].pos;
      assert pos == s.enqPos;
      if pos >= n {
        assert Slot(pos, n) == Slot(pos - n, n);
        assert Sq(s.cells, pos) == Sq(s.cells, pos - n);
      }
    }
  }

  lemma StartsCall<T>(s: State<T>, t: nat, a: Action<T>)
    requires t < |s.threads| && |s.cells| > 0 && s.threads[t].Done?
    ensures a.StartEnqueue? ==> Exec(s, t, a) == At(s, t, EnqLoadPos(a.v))
    ensures a.StartDequeue? ==> Exec(s, t, a) == At(s, t, DeqLoadPos)
  {
  }

  lemma SawMore<T>(s: State<T>, before: seq<(nat, Action<T>)>, schedule: seq<(nat, Action<T>)>)
    requires |s.cells| > 0 && before <= schedule
    ensures SawCrowded(s, before) ==> SawCrowded(s, schedule)
    ensures SawStarved(s, before) ==> SawStarved(s, schedule)
  {
    hide Run, Crowded, Starved;
    forall i | 0 <= i <= |before|
      ensures before[..i] == schedule[..i]
    {
    }
  }

  /** One more step of the schedule keeps what is known of the call. */
  lemma EnqueueStep<T(!new)>(s: State<T>, schedule: seq<(nat, Action<T>)>, t: nat, v: T, u: nat, a: Action<T>)
    requires |s.cells| > 0 && Inv(Run(s, schedule)) && |s.vals| <= |Run(s, schedule).vals|
    requires var m := Run(s, schedule);
      && t < |m.threads| && u < |m.threads| && EnqueueSoFar(s, schedule, m.threads[t], m, v)
      && (u == t ==> a.Go? || a.FailSpuriously?)
    ensures var s' := Exec(Run(s, schedule), u, a);
      |s'.threads| == |Run(s, schedule).threads| && EnqueueSoFar(s, schedule, s'.threads[t], s', v)
  {
    var m := Run(s, schedule);
    HistoryGrows(m, u, a);
    InvShape(m);
    InvThread(m, t);
    hide Inv, Run;
    if u == t {
      RefusedNow(m, t);
      assert schedule[..|schedule|] == schedule;
    }
  }

  lemma DequeueStep<T(!new)>(s: State<T>, schedule: seq<(nat, Action<T>)>, t: nat, u: nat, a: Action<T>)
    requires |s.cells| > 0 && Inv(Run(s, schedule)) && s.deqPos <= Run(s, schedule).deqPos
    requires var m := Run(s, schedule);
      && t < |m.threads| && u < |m.threads| && DequeueSoFar(s, schedule, m.threads[t], m)
      && (u == t ==> a.Go? || a.FailSpuriously?)
    ensures var s' := Exec(Run(s, schedule), u, a);
      |s'.threads| == |Run(s, schedule).threads| && DequeueSoFar(s, schedule, s'.threads[t], s')
  {
    var m := Run(s, schedule);
    HistoryGrows(m, u, a);
    InvThread(m, t);
    hide Inv, Run;
    if u == t {
      RefusedNow(m, t);
      assert schedule[..|schedule|] == schedule;
    }
  }

  /** A call of enqueue(v) is where its own steps have brought it: a true answer has `v`
      under a published ticket that was not handed out when the call began, and a false
      one means that the ring was crowded at an instant of the call. */
  lemma {:induction false} EnqueueCall<T(!new)>(s: State<T>, t: nat, v: T, schedule: seq<(nat, Action<T>)>)
    requires Inv(s) && t < |s.threads| && s.threads[t].Done? && |s.cells| > 0 && IsCall(schedule, t, StartEnqueue(v))
    ensures var s' := Run(s, schedule);
      && Inv(s') && |s'.threads| == |s.threads| && |s.vals| <= |s'.vals|
      && EnqueueSoFar(s, schedule, s'.threads[t], s', v)
    decreases |schedule|
  {
    hide Inv, Exec;
    InvShape(s);
    var n := |schedule| - 1;
    var (u, a) := schedule[n];
    var before := schedule[..n];
    if n == 0 {
      assert Run(s, before) == s;
      ExecInv(s, t, a);
      StartsCall(s, t, a);
    } else {
      EnqueueCall(s, t, v, before);
      var m := Run(s, before);
      InvShape(m);
      if u < |m.threads| {
        EnqueueStep(s, before, t, v, u, a);
        ExecInv(m, u, a);
        HistoryGrows(m, u, a);
      }
      SawMore(s, before, schedule);
    }
  }

  lemma {:induction false} DequeueCall<T(!new)>(s: State<T>, t: nat, schedule: seq<(nat, Action<T>)>)
    requires Inv(s) && t < |s.threads| && s.threads[t].Done? && |s.cells| > 0 && IsCall(schedule, t, StartDequeue)
    ensures var s' := Run(s, schedule);
      && Inv(s') && |s'.threads| == |s.threads| && s.deqPos <= s'.deqPos
      && DequeueSoFar(s, schedule, s'.threads[t], s')
    decreases |schedule|
  {
    hide Inv, Exec;
    InvShape(s);
    var n := |schedule| - 1;
    var (u, a) := schedule[n];
    var before := schedule[..n];
    if n == 0 {
      assert Run(s, before) == s;
      ExecInv(s, t, a);
      StartsCall(s, t, a);
    } else {
      DequeueCall(s, t, before);
      var m := Run(s, before);
      InvShape(m);
      if u < |m.threads| {
        DequeueStep(s, before, t, u, a);
        ExecInv(m, u, a);
        HistoryGrows(m, u, a);
      }
      SawMore(s, before, schedule);
    }
  }

  // ----- Progress -----

  /** The steps that `t` has taken, and those of them that were spurious failures. */
  function Steps<T>(schedule: seq<(nat, Action<T>)>, t: nat): nat {
    if |schedule| == 0 then 0
    else Steps(schedule[..|schedule| - 1], t) + (if schedule[|schedule| - 1].0 == t then 1 else 0)
  }

  function Spurious<T>(schedule: seq<(nat, Action<T>)>, t: nat): nat {
    if |schedule| == 0 then 0
    else
      var last := schedule[|schedule| - 1];
      Spurious(schedule[..|schedule| - 1], t) + (if last.0 == t && last.1.FailSpuriously? then 1 else 0)
  }

  /** A sequence number that is ahead of a ticket means that the ticket is gone. */
  lemma AheadMeansTaken<T>(s: State<T>, t: nat)
    requires Inv(s) && t < |s.threads|
    ensures s.threads[t].EnqLoadSeq? && Sq(s.cells, s.threads[t].pos) > s.threads[t].pos ==> s.threads[t].pos < s.enqPos
    ensures s.threads[t].DeqLoadSeq? && Sq(s.cells, s.threads[t].pos) > s.threads[t].pos + 1 ==>
      s.threads[t].pos < s.deqPos
    ensures s.threads[t].EnqLoadSeq? || s.threads[t].EnqCas? ==> s.threads[t].pos <= s.enqPos
    ensures s.threads[t].DeqLoadSeq? || s.threads[t].DeqCas? ==> s.threads[t].pos <= s.deqPos
  {
    InvThread(s, t);
    var n := |s.cells|;
    assert Slot(s.deqPos + n, n) == Slot(s.deqPos, n);
    assert Sq(s.cells, s.deqPos + n) == Sq(s.cells, s.deqPos);
  }

  /** How many steps an enqueue may have taken, by where it is and how many tickets were
      handed out since it began; `base` is the next ticket then. */
  predicate EnqueueBound<T>(base: nat, l: Local<T>, enqPos: nat, steps: nat, spurious: nat) {
    match l
    case EnqLoadPos(_) => base <= enqPos && steps <= 3 * (enqPos - base + spurious) + 1
    case EnqLoadSeq(_, pos) => base <= pos <= enqPos && steps <= 3 * (pos - base + spurious) + 2
    case EnqCas(_, pos) => base <= pos <= enqPos && steps <= 3 * (pos - base + spurious) + 3
    case EnqWrite(_, pos) => base <= pos < enqPos && steps <= 3 * (pos - base + spurious) + 4
    case EnqPublish(_, pos) => base <= pos < enqPos && steps <= 3 * (pos - base + spurious) + 5
    case _ => true
  }

  predicate DequeueBound<T>(base: nat, l: Local<T>, deqPos: nat, steps: nat, spurious: nat) {
    match l
    case DeqLoadPos => base <= deqPos && steps <= 3 * (deqPos - base + spurious) + 1
    case DeqLoadSeq(pos) => base <= pos <= deqPos && steps <= 3 * (pos - base + spurious) + 2
    case DeqCas(pos) => base <= pos <= deqPos && steps <= 3 * (pos - base + spurious) + 3
    case DeqRead(pos) => base <= pos < deqPos && steps <= 3 * (pos - base + spurious) + 4
    case DeqPublish(pos, _) => base <= pos < deqPos && steps <= 3 * (pos - base + spurious) + 5
    case _ => true
  }

  lemma EnqueueBoundStep<T>(m: State<T>, t: nat, a: Action<T>, base: nat, steps: nat, spurious: nat)
    requires Inv(m) && t < |m.threads| && (a.Go? || a.FailSpuriously?) && !DequeuePc(m.threads[t])
    requires EnqueueBound(base, m.threads[t], m.enqPos, steps, spurious)
    ensures var m' := Exec(m, t, a);
      && t < |m'.threads|
      && EnqueueBound(base, m'.threads[t], m'.enqPos, steps + 1, spurious + (if a.FailSpuriously? then 1 else 0))
  {
    AheadMeansTaken(m, t);
    InvShape(m);
    hide Inv, Sq, Slot;
  }

  lemma DequeueBoundStep<T>(m: State<T>, t: nat, a: Action<T>, base: nat, steps: nat, spurious: nat)
    requires Inv(m) && t < |m.threads| && (a.Go? || a.FailSpuriously?)
    requires DequeuePc(m.threads[t]) || m.threads[t].Done?
    requires DequeueBound(base, m.threads[t], m.deqPos, steps, spurious)
    ensures var m' := Exec(m, t, a);
      && t < |m'.threads|
      && DequeueBound(base, m'.threads[t], m'.deqPos, steps + 1, spurious + (if a.FailSpuriously? then 1 else 0))
  {
    AheadMeansTaken(m, t);
    InvShape(m);
    InvThread(m, t);
    hide Inv, Sq, Slot;
  }

  lemma BoundsGrow<T>(base: nat, l: Local<T>, before: nat, after: nat, steps: nat, spurious: nat)
    requires before <= after
    ensures EnqueueBound(base, l, before, steps, spurious) ==> EnqueueBound(base, l, after, steps, spurious)
    ensures DequeueBound(base, l, before, steps, spurious) ==> DequeueBound(base, l, after, steps, spurious)
  {
  }

  lemma StartBounds<T>(base: nat, a: Action<T>)
    ensures a.StartEnqueue? ==> EnqueueBound(base, EnqLoadPos(a.v), base, 1, 0)
    ensures DequeueBound<T>(base, DeqLoadPos, base, 1, 0)
  {
  }

  /** What the bounds come to while a call is on its way. */
  lemma BoundsMean<T>(base: nat, l: Local<T>, now: nat, steps: nat, spurious: nat)
    requires base <= now && !l.Done?
    ensures EnqueueBound(base, l, now, steps, spurious) && !DequeuePc(l) ==> steps <= 3 * (now - base + spurious) + 3
    ensures DequeueBound(base, l, now, steps, spurious) && DequeuePc(l) ==> steps <= 3 * (now - base + spurious) + 3
  {
  }

  lemma KindsOfEnqueue<T>(s: State<T>, schedule: seq<(nat, Action<T>)>, l: Local<T>, s': State<T>, v: T)
    requires |s.cells| > 0 && EnqueueSoFar(s, schedule, l, s', v)
    ensures !DequeuePc(l)
  {
  }

  lemma KindsOfDequeue<T>(s: State<T>, schedule: seq<(nat, Action<T>)>, l: Local<T>, s': State<T>)
    requires |s.cells| > 0 && DequeueSoFar(s, schedule, l, s')
    ensures DequeuePc(l) || l.Done?
  {
  }

  /** Enqueue is lock-free: a call that is still on its way has taken at most three steps, and
      three more for every ticket handed out since it began and every spurious failure. */
  lemma {:induction false} EnqueueProgress<T(!new)>(s: State<T>, t: nat, v: T, schedule: seq<(nat, Action<T>)>)
    requires Inv(s) && t < |s.threads| && s.threads[t].Done? && |s.cells| > 0 && IsCall(schedule, t, StartEnqueue(v))
    ensures var s' := Run(s, schedule);
      && t < |s'.threads| && |s.vals| <= |s'.vals|
      && EnqueueBound(|s.vals|, s'.threads[t], |s'.vals|, Steps(schedule, t), Spurious(schedule, t))
      && (!s'.threads[t].Done? ==> Steps(schedule, t) <= 3 * (|s'.vals| - |s.vals| + Spurious(schedule, t)) + 3)
    decreases |schedule|
  {
    hide Inv, Exec, EnqueueSoFar, EnqueueBound;
    EnqueueCall(s, t, v, schedule);
    KindsOfEnqueue(s, schedule, Run(s, schedule).threads[t], Run(s, schedule), v);
    var n := |schedule| - 1;
    var (u, a) := schedule[n];
    var before := schedule[..n];
    InvShape(s);
    InvShape(Run(s, schedule));
    if n == 0 {
      assert Run(s, before) == s && Steps(before, t) == 0 == Spurious(before, t);
      StartsCall(s, t, a);
      StartBounds<T>(|s.vals|, a);
    } else {
      EnqueueProgress(s, t, v, before);
      EnqueueCall(s, t, v, before);
      var m := Run(s, before);
      InvShape(m);
      if u < |m.threads| {
        HistoryGrows(m, u, a);
        if u == t {
          KindsOfEnqueue(s, before, m.threads[t], m, v);
          EnqueueBoundStep(m, t, a, |s.vals|, Steps(before, t), Spurious(before, t));
        } else {
          BoundsGrow(|s.vals|, m.threads[t], |m.vals|, |Exec(m, u, a).vals|, Steps(before, t), Spurious(before, t));
        }
      }
    }
    if !Run(s, schedule).threads[t].Done? {
      var s' := Run(s, schedule);
      BoundsMean(|s.vals|, s'.threads[t], |s'.vals|, Steps(schedule, t), Spurious(schedule, t));
    }
  }

  /** So is dequeue, for tickets of dequeuers. */
  lemma {:induction false} DequeueProgress<T(!new)>(s: State<T>, t: nat, schedule: seq<(nat, Action<T>)>)
    requires Inv(s) && t < |s.threads| && s.threads[t].Done? && |s.cells| > 0 && IsCall(schedule, t, StartDequeue)
    ensures var s' := Run(s, schedule);
      && t < |s'.threads| && s.deqPos <= s'.deqPos
      && DequeueBound(s.deqPos, s'.threads[t], s'.deqPos, Steps(schedule, t), Spurious(schedule, t))
      && (!s'.threads[t].Done? ==> Steps(schedule, t) <= 3 * (s'.deqPos - s.deqPos + Spurious(schedule, t)) + 3)
    decreases |schedule|
  {
    hide Inv, Exec, DequeueSoFar, DequeueBound;
    DequeueCall(s, t, schedule);
    KindsOfDequeue(s, schedule, Run(s, schedule).threads[t], Run(s, schedule));
    var n := |schedule| - 1;
    var (u, a) := schedule[n];
    var before := schedule[..n];
    InvShape(s);
    if n == 0 {
      assert Run(s, before) == s && Steps(before, t) == 0 == Spurious(before, t);
      StartsCall(s, t, a);
      StartBounds<T>(s.deqPos, a);
    } else {
      DequeueProgress(s, t, before);
      DequeueCall(s, t, before);
      var m := Run(s, before);
      InvShape(m);
      if u < |m.threads| {
        HistoryGrows(m, u, a);
        if u == t {
          KindsOfDequeue(s, before, m.threads[t], m);
          DequeueBoundStep(m, t, a, s.deqPos, Steps(before, t), Spurious(before, t));
        } else {
          BoundsGrow(s.deqPos, m.threads[t], m.deqPos, Exec(m, u, a).deqPos, Steps(before, t), Spurious(before, t));
        }
      }
    }
    if !Run(s, schedule).threads[t].Done? {
      var s' := Run(s, schedule);
      BoundsMean(s.deqPos, s'.threads[t], s'.deqPos, Steps(schedule, t), Spurious(schedule, t));
    }
  }

  lemma {:induction false} SpuriousAppend<T>(x: seq<(nat, Action<T>)>, y: seq<(nat, Action<T>)>, t: nat)
    ensures Spurious(x + y, t) == Spurious(x, t) + Spurious(y, t)
    decreases |y|
  {
    if |y| == 0 {
      assert x + y == x;
    } else {
      SpuriousAppend(x, y[..|y| - 1], t);
      assert (x + y)[..|x + y| - 1] == x + y[..|y| - 1];
    }
  }

  /** The abstract queue: the values whose tickets no dequeuer has taken. */
  function Contents<T>(s: State<T>): seq<T>
    requires s.deqPos <= |s.vals|
  {
    s.vals[s.deqPos..]
  }

  /** Refinement of a bounded FIFO queue: a step appends the caller's value to a
      queue that is not full, or gives the first value to the dequeuer that will
      return it, or changes nothing. */
  lemma StepsRefineFifo<T(!new)>(s: State<T>, t: nat, a: Action<T>)
    requires Reachable(s) && t < |s.threads| && |s.cells| > 0 && s.deqPos <= |s.vals|
    ensures var s' := Exec(s, t, a);
      && s'.deqPos <= |s'.vals|
      && (s.threads[t].EnqCas? && s'.threads[t].EnqWrite? ==>
            |Contents(s)| < |s.cells| && Contents(s') == Contents(s) + [s.threads[t].v])
      && (s.threads[t].DeqCas? && s'.threads[t].DeqRead? ==>
            |Contents(s)| > 0 && Contents(s') == Contents(s)[1..] && s.vals[s'.threads[t].pos] == Contents(s)[0])
      && (s.threads[t].DeqPublish? ==>
            && s.threads[t].pos < |s.vals| && s.threads[t].x == s.vals[s.threads[t].pos]
            && s'.threads[t] == Done(Dequeued(Some(s.threads[t].x))))
      && (!(s'.threads[t].EnqWrite? || s'.threads[t].DeqRead?) ==> Contents(s') == Contents(s))
  {
    hide Inv, Sq, Data, Slot;
    ReachableInv(s);
    InvThread(s, t);
    if s.threads[t].EnqCas? && s.threads[t].pos == s.enqPos {
      EnqueueTicketValid(s, t);
    } else if s.threads[t].DeqCas? && s.threads[t].pos == s.deqPos {
      DequeueTicketValid(s, t);
    }
  }

  /** The constructor's size test is what makes `pos & buffer_mask_` the ring
      position of ticket `pos`. */
  lemma MaskedIndex(pos: nat, size: nat)
    requires size >= 2 && BitAnd(size, size - 1) == 0
    ensures BitAnd(pos, size - 1) == Slot(pos, size)
  {
    MaskIsResidue(pos, size);
    SlotIsResidue(pos, size);
  }
}
