/** LightweightSemaphore (libs/atomicops.h): a counter in front of a kernel
    semaphore, with one waiter and any number of signallers. One transition per
    atomic access to the counter or operation on the kernel semaphore. */
module Semaphore {
  import opened Common

  const SPIN := 10000

  /** tryWait(), wait() and wait(timeout). */
  datatype Kind = TryOnly | Forever | Timed

  datatype Result = NoCall | Acquired | NotAvailable | TimedOut

  /** The waiter's program counter; each constructor but `Out` names its next
      access. `SpinLoad` counts the loads left, `Undo`, `Redo` and `TakeToken`
      are the loop entered after a time-out. */
  datatype Waiter =
    | Out(result: Result)
    | TryLoad(kind: Kind)
    | TryDec
    | SpinLoad(kind: Kind, left: nat)
    | SpinDec
    | Dec(kind: Kind)
    | Blocked(kind: Kind)
    | Undo
    | Redo
    | TakeToken

  datatype Signaller = Quiet | Add(count: nat) | Post

  /** `count` is m_count and `tokens` the kernel semaphore; `initial`,
      `signalled` and `taken` are history. */
  datatype State = State(
    count: int,
    tokens: nat,
    waiter: Waiter,
    signallers: seq<Signaller>,
    initial: nat,
    signalled: nat,
    taken: nat)

  datatype Action = StartWait(kind: Kind) | StartSignal(count: nat) | Go | Expire

  /** Who moves: the waiter or one of the signallers. */
  datatype Agent = TheWaiter | ASignaller(i: nat)

  function Initial(initial: nat, signallerCount: nat): State {
    State(initial, 0, Out(NoCall), seq(signallerCount, _ => Quiet), initial, 0, 0)
  }

  function Acquire(s: State): State {
    s.(waiter := Out(Acquired), taken := s.taken + 1)
  }

  function WaiterStep(s: State, a: Action): State {
    match s.waiter
    case Out(_) => if a.StartWait? then s.(waiter := TryLoad(a.kind)) else s
    case TryLoad(kind) =>
      if s.count > 0 then s.(waiter := TryDec)
      else if kind.TryOnly? then s.(waiter := Out(NotAvailable))
      else s.(waiter := SpinLoad(kind, SPIN))
    case TryDec => Acquire(s).(count := s.count - 1)
    case SpinLoad(kind, left) =>
      if s.count > 0 then s.(waiter := SpinDec)
      else if left <= 1 then s.(waiter := Dec(kind))
      else s.(waiter := SpinLoad(kind, left - 1))
    case SpinDec => Acquire(s).(count := s.count - 1)
    case Dec(kind) =>
      if s.count > 0 then Acquire(s).(count := s.count - 1)
      else s.(waiter := Blocked(kind), count := s.count - 1)
    case Blocked(kind) =>
      if a.Expire? && kind.Timed? then s.(waiter := Undo)
      else if s.tokens > 0 then Acquire(s).(tokens := s.tokens - 1)
      else s
    case Undo =>
      if s.count < 0 then s.(waiter := Out(TimedOut), count := s.count + 1)
      else s.(waiter := Redo, count := s.count + 1)
    case Redo =>
      if s.count > 0 then s.(waiter := TakeToken, count := s.count - 1)
      else s.(waiter := Undo, count := s.count - 1)
    case TakeToken =>
      if s.tokens > 0 then Acquire(s).(tokens := s.tokens - 1)
      else s.(waiter := Undo)
  }

  function SignallerStep(s: State, i: nat, a: Action): State
    requires i < |s.signallers|
  {
    match s.signallers[i]
    case Quiet =>
      if a.StartSignal? then s.(signallers := s.signallers[i := Add(a.count)]) else s
    case Add(c) =>
      s.(count := s.count + c, signalled := s.signalled + c,
         signallers := s.signallers[i := if s.count < 0 then Post else Quiet])
    case Post => s.(tokens := s.tokens + 1, signallers := s.signallers[i := Quiet])
  }

  function Exec(s: State, who: Agent, a: Action): State {
    match who
    case TheWaiter => WaiterStep(s, a)
    case ASignaller(i) => if i < |s.signallers| then SignallerStep(s, i, a) else s
  }

  function Run(s: State, schedule: seq<(Agent, Action)>): State
    decreases |schedule|
  {
    if |schedule| == 0 then s
    else
      var (who, a) := schedule[|schedule| - 1];
      Exec(Run(s, schedule[..|schedule| - 1]), who, a)
  }

  // ----- The invariant -----

  predicate IsPost(g: Signaller) { g.Post? }

  /** Tokens posted or about to be posted. */
  function InFlight(s: State): nat {
    s.tokens + Count(s.signallers, IsPost)
  }

  /** The waiter has taken one from the counter but has not succeeded yet. */
  predicate Committed(w: Waiter) {
    w.Blocked? || w.Undo? || w.TakeToken?
  }

  /** Signals not consumed by a successful wait. */
  function Available(s: State): int {
    s.initial + s.signalled - s.taken
  }

  predicate Inv(s: State) {
    && Available(s) == s.count + (if Committed(s.waiter) then 1 else 0)
    && (if Committed(s.waiter) then (s.count == -1 && InFlight(s) == 0) || (s.count >= 0 && InFlight(s) == 1)
        else if s.waiter.Redo? then s.count >= 1 && InFlight(s) == 1
        else if s.waiter.TryDec? || s.waiter.SpinDec? then s.count >= 1 && InFlight(s) == 0
        else s.count >= 0 && InFlight(s) == 0)
  }

  /** A step is careful unless it signals zero while the waiter is waiting. */
  predicate Careful(s: State, who: Agent) {
    who.ASignaller? && who.i < |s.signallers| && s.signallers[who.i].Add? ==>
      s.signallers[who.i].count >= 1 || s.count >= 0
  }

  predicate CarefulRun(s: State, schedule: seq<(Agent, Action)>)
    decreases |schedule|
  {
    |schedule| == 0 ||
    (var before := schedule[..|schedule| - 1];
     CarefulRun(s, before) && Careful(Run(s, before), schedule[|schedule| - 1].0))
  }

  lemma SignallerCount(s: State, i: nat, g: Signaller)
    requires i < |s.signallers|
    ensures Count(s.signallers[i := g], IsPost) ==
      Count(s.signallers, IsPost) - (if s.signallers[i].Post? then 1 else 0) + (if g.Post? then 1 else 0)
  {
    CountUpdate(s.signallers, i, g, IsPost);
  }

  /** Exactly when a step keeps the invariant: always, except that a signal of
      zero breaks it whenever the waiter is waiting. */
  lemma ExecInvIffCareful(s: State, who: Agent, a: Action)
    requires Inv(s)
    ensures Inv(Exec(s, who, a)) <==> Careful(s, who)
  {
    if who.ASignaller? && who.i < |s.signallers| {
      var s' := Exec(s, who, a);
      SignallerCount(s, who.i, s'.signallers[who.i]);
      if s.signallers[who.i].Post? {
        CountPositive(s.signallers, who.i, IsPost);
      }
    }
  }

  lemma InitialInv(initial: nat, signallerCount: nat)
    ensures Inv(Initial(initial, signallerCount))
  {
    CountNone(Initial(initial, signallerCount).signallers, IsPost);
  }

  lemma {:induction false} RunInv(s: State, schedule: seq<(Agent, Action)>)
    requires Inv(s) && CarefulRun(s, schedule)
    ensures Inv(Run(s, schedule))
    decreases |schedule|
  {
    if |schedule| > 0 {
      RunInv(s, schedule[..|schedule| - 1]);
      var (who, a) := schedule[|schedule| - 1];
      ExecInvIffCareful(Run(s, schedule[..|schedule| - 1]), who, a);
    }
  }

  ghost predicate Reachable(s: State) {
    exists initial: nat, signallerCount: nat, schedule: seq<(Agent, Action)> ::
      var s0 := Initial(initial, signallerCount); CarefulRun(s0, schedule) && s == Run(s0, schedule)
  }

  lemma ReachableInv(s: State)
    requires Reachable(s)
    ensures Inv(s)
  {
    var initial: nat, signallerCount: nat, schedule: seq<(Agent, Action)> :|
      var s0 := Initial(initial, signallerCount); CarefulRun(s0, schedule) && s == Run(s0, schedule);
    InitialInv(initial, signallerCount);
    RunInv(Initial(initial, signallerCount), schedule);
  }

  // ----- What every run guarantees -----

  /** Successful waits never outnumber the initial count plus the signals, and
      the counter never drops below minus one (what signal() asserts). */
  lemma WaitsNeverExceedSignals(s: State)
    requires Reachable(s)
    ensures s.taken <= s.initial + s.signalled
    ensures s.count >= -1
  {
    ReachableInv(s);
  }

  /** With no wait in progress the kernel semaphore is empty, no post is on its
      way and the counter is exactly the unconsumed signals. */
  lemma NoTokenLeftOver(s: State)
    requires Reachable(s) && s.waiter.Out?
    ensures s.tokens == 0
    ensures forall i :: 0 <= i < |s.signallers| ==> !s.signallers[i].Post?
    ensures s.count == s.initial + s.signalled - s.taken
  {
    ReachableInv(s);
    forall i | 0 <= i < |s.signallers|
      ensures !s.signallers[i].Post?
    {
      if s.signallers[i].Post? {
        CountPositive(s.signallers, i, IsPost);
      }
    }
  }

  /** A wait that times out leaves the counter, the kernel semaphore and the
      balance as if it had never been called. */
  lemma TimeOutLeavesNoTrace(s: State, a: Action)
    requires Reachable(s) && s.waiter.Undo? && WaiterStep(s, a).waiter.Out?
    ensures var s' := WaiterStep(s, a);
      && s'.waiter == Out(TimedOut)
      && s'.taken == s.taken && s'.tokens == s.tokens == 0 && s'.signallers == s.signallers
      && s'.count == s.initial + s.signalled - s.taken
  {
    ReachableInv(s);
  }

  /** A waiter that sleeps with no token and no post on its way sleeps rightly:
      every signal has been consumed. */
  lemma SleepsOnlyWithoutSignals(s: State)
    requires Reachable(s) && s.waiter.Blocked? && s.tokens == 0
    requires forall i :: 0 <= i < |s.signallers| ==> !s.signallers[i].Post?
    ensures s.taken == s.initial + s.signalled
  {
    ReachableInv(s);
    CountNone(s.signallers, IsPost);
  }

  /** The retry loop's second decrement always finds the signal it saw. */
  lemma RedoFindsSignal(s: State, a: Action)
    requires Reachable(s) && s.waiter.Redo?
    ensures WaiterStep(s, a).waiter.TakeToken?
  {
    ReachableInv(s);
  }

  // ----- What was signalled and what was waited for -----

  /** The calls of signal() that have begun and not added yet, by signaller, and the sum of
      the counts given to those that have. */
  datatype Ledger = Ledger(open: map<nat, nat>, sum: nat)

  /** A call opens an entry with the count it was given; the signaller's next step adds it. */
  function Book(s: State, ledger: Ledger, who: Agent, a: Action): Ledger {
    if !who.ASignaller? || who.i >= |s.signallers| then ledger
    else if who.i in ledger.open then Ledger(ledger.open - {who.i}, ledger.sum + ledger.open[who.i])
    else if a.StartSignal? && s.signallers[who.i].Quiet? then Ledger(ledger.open[who.i := a.count], ledger.sum)
    else ledger
  }

  function Books(s: State, schedule: seq<(Agent, Action)>): Ledger
    decreases |schedule|
  {
    if |schedule| == 0 then Ledger(map[], 0)
    else
      var less, last := schedule[..|schedule| - 1], schedule[|schedule| - 1];
      Book(Run(s, less), Books(s, less), last.0, last.1)
  }

  /** The waits of a run that succeeded. */
  function Successes(s: State, schedule: seq<(Agent, Action)>): nat
    decreases |schedule|
  {
    if |schedule| == 0 then 0
    else
      var less := schedule[..|schedule| - 1];
      var ended := !Run(s, less).waiter.Out? && Run(s, schedule).waiter == Out(Acquired);
      Successes(s, less) + (if ended then 1 else 0)
  }

  /** The open entries are the signallers that are about to add, with what they will add. */
  ghost predicate OpenOk(s: State, open: map<nat, nat>) {
    && (forall i: nat :: i in open ==> i < |s.signallers| && s.signallers[i] == Add(open[i]))
    && (forall i: nat :: i < |s.signallers| && s.signallers[i].Add? ==> i in open)
  }

  lemma BookStep(s: State, ledger: Ledger, who: Agent, a: Action)
    requires OpenOk(s, ledger.open)
    ensures var s' := Exec(s, who, a); var ledger' := Book(s, ledger, who, a);
      && OpenOk(s', ledger'.open) && s'.initial == s.initial
      && s'.signalled - s.signalled == ledger'.sum - ledger.sum
      && s'.taken - s.taken == if !s.waiter.Out? && s'.waiter == Out(Acquired) then 1 else 0
  {
  }

  lemma {:induction false} BooksBalance(s: State, schedule: seq<(Agent, Action)>)
    requires forall i :: 0 <= i < |s.signallers| ==> !s.signallers[i].Add?
    ensures var s' := Run(s, schedule);
      && OpenOk(s', Books(s, schedule).open) && s'.initial == s.initial
      && s'.signalled == s.signalled + Books(s, schedule).sum
      && s'.taken == s.taken + Successes(s, schedule)
    decreases |schedule|
  {
    if |schedule| > 0 {
      hide Exec, Book;
      var less, last := schedule[..|schedule| - 1], schedule[|schedule| - 1];
      BooksBalance(s, less);
      BookStep(Run(s, less), Books(s, less), last.0, last.1);
    }
  }

  /** Conservation, counted on the calls alone: in every careful run no more waits succeed
      than the initial count and the counts given to the signals that have been added; and
      with no wait in progress the counter is exactly the difference. */
  lemma {:induction false} SuccessesNeverExceedSignals(initial: nat, signallerCount: nat,
                                                       schedule: seq<(Agent, Action)>)
    requires CarefulRun(Initial(initial, signallerCount), schedule)
    ensures var s0 := Initial(initial, signallerCount);
      && Successes(s0, schedule) <= initial + Books(s0, schedule).sum
      && (Run(s0, schedule).waiter.Out? ==>
            Run(s0, schedule).count == initial + Books(s0, schedule).sum - Successes(s0, schedule))
  {
    var s0 := Initial(initial, signallerCount);
    BooksBalance(s0, schedule);
    WaitsNeverExceedSignals(Run(s0, schedule));
    if Run(s0, schedule).waiter.Out? {
      NoTokenLeftOver(Run(s0, schedule));
    }
  }

  // ----- Whole calls -----

  /** A schedule that begins with `who` starting a call and in which `who` starts no
      other. */
  ghost predicate IsCall(schedule: seq<(Agent, Action)>, who: Agent, start: Action) {
    && |schedule| > 0 && schedule[0] == (who, start)
    && forall i :: 0 < i < |schedule| && schedule[i].0 == who ==> schedule[i].1.Go? || schedule[i].1.Expire?
  }

  /** `s'` is where one call of `who`, finished or not, can bring `s` while everybody
      else runs. */
  ghost predicate CallRan(s: State, s': State, who: Agent, start: Action) {
    exists schedule :: IsCall(schedule, who, start) && s' == Run(s, schedule)
  }

  /** The `j`-th step of `schedule` is signaller `i`'s addition of `n` to the count, which was
      below zero then exactly if `waiting`. */
  ghost predicate AddsAt(s: State, schedule: seq<(Agent, Action)>, i: nat, n: nat, waiting: bool, j: nat) {
    && j < |schedule| && schedule[j] == (ASignaller(i), Go)
    && var m := Run(s, schedule[..j]);
       && i < |m.signallers| && m.signallers[i] == Add(n) && (waiting <==> m.count < 0)
       && Run(s, schedule[..j + 1]).count == m.count + n
  }

  /** `schedule` is a call of signal(n) by signaller `i` whose addition found the count below
      zero, or not, as `waiting` says. */
  ghost predicate SignalFound(s: State, schedule: seq<(Agent, Action)>, i: nat, n: nat, waiting: bool) {
    IsCall(schedule, ASignaller(i), StartSignal(n)) && exists j: nat :: AddsAt(s, schedule, i, n, waiting, j)
  }

  /** The run of `schedule` passes through a state in which every signal is consumed. */
  ghost predicate SawNone(s: State, schedule: seq<(Agent, Action)>) {
    exists i :: 0 <= i <= |schedule| && Available(Run(s, schedule[..i])) == 0
  }

  /** `CallRan` of a wait through such a state. */
  ghost predicate WaitSawNone(s: State, s': State, kind: Kind) {
    exists schedule :: IsCall(schedule, TheWaiter, StartWait(kind)) && s' == Run(s, schedule) && SawNone(s, schedule)
  }

  lemma {:induction false} RunAppend(s: State, one: seq<(Agent, Action)>, two: seq<(Agent, Action)>)
    ensures Run(s, one + two) == Run(Run(s, one), two)
    decreases |two|
  {
    if |two| == 0 {
      assert one + two == one;
    } else {
      assert (one + two)[..|one + two| - 1] == one + two[..|two| - 1];
      RunAppend(s, one, two[..|two| - 1]);
    }
  }

  lemma {:induction false} CarefulAppend(s: State, one: seq<(Agent, Action)>, two: seq<(Agent, Action)>)
    ensures CarefulRun(s, one + two) <==> CarefulRun(s, one) && CarefulRun(Run(s, one), two)
    decreases |two|
  {
    hide Exec, Careful;
    if |two| == 0 {
      assert one + two == one;
    } else {
      assert (one + two)[..|one + two| - 1] == one + two[..|two| - 1];
      RunAppend(s, one, two[..|two| - 1]);
      CarefulAppend(s, one, two[..|two| - 1]);
    }
  }

  /** The waiter is about to find the kernel semaphore empty. */
  predicate Unserved(s: State) {
    (s.waiter.Blocked? || s.waiter.TakeToken?) && s.tokens == 0
  }

  /** How often it did, time-outs aside. */
  function Misses(s: State, schedule: seq<(Agent, Action)>): nat
    decreases |schedule|
  {
    if |schedule| == 0 then 0
    else
      var less, last := schedule[..|schedule| - 1], schedule[|schedule| - 1];
      Misses(s, less) + (if last == (TheWaiter, Go) && Unserved(Run(s, less)) then 1 else 0)
  }

  lemma {:induction false} MissesAppend(s: State, one: seq<(Agent, Action)>, two: seq<(Agent, Action)>)
    ensures Misses(s, one + two) == Misses(s, one) + Misses(Run(s, one), two)
    decreases |two|
  {
    hide Exec, Unserved;
    if |two| == 0 {
      assert one + two == one;
    } else {
      assert (one + two)[..|one + two| - 1] == one + two[..|two| - 1];
      MissesAppend(s, one, two[..|two| - 1]);
      RunAppend(s, one, two[..|two| - 1]);
    }
  }

  predicate GaveUp(w: Waiter) { w == Out(NotAvailable) || w == Out(TimedOut) }

  lemma GivesUp(s: State, who: Agent, a: Action)
    requires Inv(s)
    ensures GaveUp(Exec(s, who, a).waiter) ==>
      Available(s) == 0 || (GaveUp(s.waiter) && (who.ASignaller? || !a.StartWait?))
    ensures who.TheWaiter? && s.waiter.Out? && a.StartWait? ==> Exec(s, who, a).waiter == TryLoad(a.kind)
  {
    hide InFlight;
  }

  /** A tryWait() that fails and a wait that times out passed through a state in which
      every signal was consumed. */
  lemma {:induction false} WaitCall(s: State, kind: Kind, schedule: seq<(Agent, Action)>)
    requires Inv(s) && s.waiter.Out? && IsCall(schedule, TheWaiter, StartWait(kind)) && CarefulRun(s, schedule)
    ensures Inv(Run(s, schedule))
    ensures GaveUp(Run(s, schedule).waiter) ==> SawNone(s, schedule)
    decreases |schedule|
  {
    hide Inv, Exec, Available;
    var n := |schedule| - 1;
    var (who, a) := schedule[n];
    var before := schedule[..n];
    var m := Run(s, before);
    RunInv(s, before);
    RunInv(s, schedule);
    GivesUp(m, who, a);
    if n == 0 {
      assert m == s;
    } else {
      WaitCall(s, kind, before);
      if GaveUp(Run(s, schedule).waiter) && Available(m) != 0 {
        var i :| 0 <= i <= |before| && Available(Run(s, before[..i])) == 0;
        assert before[..i] == schedule[..i];
      }
    }
  }

  // ----- Signalling zero -----

  function SpinSchedule(k: nat): seq<(Agent, Action)> {
    seq(k, _ => (TheWaiter, Go))
  }

  lemma {:induction false} SpinOut(s: State, k: nat)
    requires s.waiter.SpinLoad? && s.count <= 0 && k < s.waiter.left
    ensures Run(s, SpinSchedule(k)) == s.(waiter := SpinLoad(s.waiter.kind, s.waiter.left - k))
  {
    if k > 0 {
      assert SpinSchedule(k)[..k - 1] == SpinSchedule(k - 1);
      SpinOut(s, k - 1);
    }
  }

  /** signal(0), which the code accepts, lets a wait succeed with nothing
      signalled if the waiter is already asleep. */
  lemma SignalZeroBreaksConservation() returns (schedule: seq<(Agent, Action)>)
    ensures Run(Initial(0, 1), schedule).taken > 0 == Run(Initial(0, 1), schedule).signalled
  {
    var s0 := Initial(0, 1);
    var begin := [(TheWaiter, StartWait(Forever)), (TheWaiter, Go)];
    var spin := SpinSchedule(SPIN - 1);
    var end := [(TheWaiter, Go), (TheWaiter, Go), (ASignaller(0), StartSignal(0)),
                (ASignaller(0), Go), (ASignaller(0), Go), (TheWaiter, Go)];
    var s1 := s0.(waiter := SpinLoad(Forever, SPIN));
    assert Run(s0, begin) == s1 by {
      assert begin[..1][..0] == [] && begin[..1] == [(TheWaiter, StartWait(Forever))];
      assert Run(s0, begin[..1]) == s0.(waiter := TryLoad(Forever));
    }
    SpinOut(s1, SPIN - 1);
    var s2 := s1.(waiter := SpinLoad(Forever, 1));
    RunAppend(s0, begin, spin);
    RunAppend(s0, begin + spin, end);
    var x1 := Exec(s2, TheWaiter, Go);
    var x2 := Exec(x1, TheWaiter, Go);
    var x3 := Exec(x2, ASignaller(0), StartSignal(0));
    var x4 := Exec(x3, ASignaller(0), Go);
    var x5 := Exec(x4, ASignaller(0), Go);
    var x6 := Exec(x5, TheWaiter, Go);
    assert x4.signallers == [Post] && x5.tokens == 1 && x6.taken == 1 && x6.signalled == 0;
    assert end[..5][..4] == end[..4] && end[..4][..3] == end[..3] && end[..3][..2] == end[..2]
           && end[..2][..1] == end[..1] && end[..1][..0] == [];
    assert Run(s2, end[..1]) == x1;
    assert Run(s2, end[..2]) == x2;
    assert Run(s2, end[..3]) == x3;
    assert Run(s2, end[..4]) == x4;
    assert Run(s2, end[..5]) == x5;
    assert Run(s2, end) == x6;
    schedule := begin + spin + end;
  }

  lemma RunOne(s: State, moves: seq<(Agent, Action)>, who: Agent, a: Action)
    ensures Run(s, moves + [(who, a)]) == Exec(Run(s, moves), who, a)
  {
    assert (moves + [(who, a)])[..|moves|] == moves;
  }

  /** A wait that finds a count of zero sleeps, and takes a token that is already there. */
  lemma TakesLeftOver(s: State) returns (more: seq<(Agent, Action)>)
    requires s.waiter.Out? && s.count == 0 && s.tokens > 0
    ensures var s' := Run(s, more); s'.taken == s.taken + 1 && s'.initial == s.initial && s'.signalled == s.signalled
  {
    var begin := [(TheWaiter, StartWait(Forever))];
    RunOne(s, [], TheWaiter, StartWait(Forever));
    assert [] + begin == begin;
    RunOne(s, begin, TheWaiter, Go);
    var s1 := s.(waiter := SpinLoad(Forever, SPIN));
    assert Run(s, begin + [(TheWaiter, Go)]) == s1;
    SpinOut(s1, SPIN - 1);
    var spun := begin + [(TheWaiter, Go)] + SpinSchedule(SPIN - 1);
    RunAppend(s, begin + [(TheWaiter, Go)], SpinSchedule(SPIN - 1));
    assert Run(s, spun) == s.(waiter := SpinLoad(Forever, 1));
    hide Run;
    RunOne(s, spun, TheWaiter, Go);
    RunOne(s, spun + [(TheWaiter, Go)], TheWaiter, Go);
    RunOne(s, spun + [(TheWaiter, Go)] + [(TheWaiter, Go)], TheWaiter, Go);
    more := spun + [(TheWaiter, Go)] + [(TheWaiter, Go)] + [(TheWaiter, Go)];
  }

  /** The careless signal, its post, and the waiter's next access. */
  lemma CarelessSteps(s: State, i: nat)
    requires Inv(s) && !Careful(s, ASignaller(i))
    ensures s.taken == s.initial + s.signalled
    ensures var x := Exec(Exec(Exec(s, ASignaller(i), Go), ASignaller(i), Go), TheWaiter, Go);
      && x.initial == s.initial && x.signalled == s.signalled
      && if s.waiter.Undo? then x.waiter == Out(TimedOut) && x.count == 0 && x.tokens > 0 && x.taken == s.taken
         else x.taken == s.taken + 1
  {
    hide InFlight;
  }

  /** Every careless step is one from which more waits can succeed than there are signals:
      the token it posts has no signal behind it, and this waiter, or its next wait, takes
      it. */
  lemma CarelessBreaks(s: State, i: nat) returns (more: seq<(Agent, Action)>)
    requires Reachable(s) && !Careful(s, ASignaller(i))
    ensures var s' := Run(s, [(ASignaller(i), Go)] + more); s'.taken > s'.initial + s'.signalled
  {
    ReachableInv(s);
    CarelessSteps(s, i);
    assert Run(s, []) == s;
    hide Inv, Reachable, Exec, Run;
    var one := [(ASignaller(i), Go)];
    RunOne(s, [], ASignaller(i), Go);
    assert [] + one == one;
    RunOne(s, one, ASignaller(i), Go);
    RunOne(s, one + one, TheWaiter, Go);
    var x := Run(s, one + one + [(TheWaiter, Go)]);
    if s.waiter.Undo? {
      var rest := TakesLeftOver(x);
      RunAppend(s, one + one + [(TheWaiter, Go)], rest);
      more := one + [(TheWaiter, Go)] + rest;
      assert one + more == one + one + [(TheWaiter, Go)] + rest;
    } else {
      more := one + [(TheWaiter, Go)];
      assert one + more == one + one + [(TheWaiter, Go)];
    }
  }
}
