/** tryWait, waitWithPartialSpinning and signal of libs/atomicops.h:570-649 as written:
    loops that change the counter and the kernel semaphore in place, with everybody
    else running between any two accesses. Each is one call in a run of module Semaphore
    from the state it was called in. */
module SemaphoreProgram {
  import opened Common
  import opened Semaphore

  ghost predicate NotOf(schedule: seq<(Agent, Action)>, who: Agent) {
    forall i :: 0 <= i < |schedule| ==> schedule[i].0 != who
  }

  /** `s'` is where everybody but `who` can bring `s`, signalling at least one each. */
  ghost predicate OthersRan(s: State, s': State, who: Agent) {
    exists schedule :: NotOf(schedule, who) && CarefulRun(s, schedule) && s' == Run(s, schedule)
  }

  /** What a step leaves of the state of somebody else, `me`. */
  predicate Left(s: State, s': State, me: Agent) {
    && |s'.signallers| == |s.signallers| && s'.initial == s.initial && s'.signalled >= s.signalled
    && (me.TheWaiter? ==> s'.waiter == s.waiter && s'.taken == s.taken)
    && (me.ASignaller? && me.i < |s.signallers| ==> s'.signallers[me.i] == s.signallers[me.i])
  }

  lemma {:induction false} OthersKeep(s: State, schedule: seq<(Agent, Action)>, me: Agent)
    requires NotOf(schedule, me)
    ensures Left(s, Run(s, schedule), me)
    decreases |schedule|
  {
    if |schedule| > 0 {
      OthersKeep(s, schedule[..|schedule| - 1], me);
    }
  }

  /** Where a turn that found nothing leads. */
  function AfterMiss(w: Waiter): Waiter {
    match w
    case SpinLoad(kind, left) => if left <= 1 then Dec(kind) else SpinLoad(kind, left - 1)
    case TryLoad(kind) => if kind.TryOnly? then Out(NotAvailable) else SpinLoad(kind, SPIN)
    case _ => w
  }

  class LightweightSemaphore {
    var count: int
    /** The kernel semaphore. */
    var tokens: nat
    ghost var st: State
    /** Every step since the semaphore was made, and what that was when the call at hand
        had taken its first. */
    ghost var log: seq<(Agent, Action)>
    ghost var begun: seq<(Agent, Action)>
    ghost const start: State

    ghost predicate Logged()
      reads this
    {
      && start == Initial(start.initial, |start.signallers|) && st == Run(start, log)
      && (CarefulRun(start, log) ==> Inv(st))
    }

    /** The fields are those of a state that a run reaches. */
    ghost predicate Tied()
      reads this
    {
      Logged() && count == st.count && tokens == st.tokens
    }

    /** Nobody has signalled zero while the waiter was waiting. */
    ghost predicate Valid()
      reads this
    {
      Tied() && CarefulRun(start, log)
    }

    /** The theorems about all runs apply to the semaphore as it is. */
    lemma IsReachable()
      requires Valid()
      ensures Reachable(st)
    {
      var initial, signallerCount := start.initial, |start.signallers|;
      assert CarefulRun(Initial(initial, signallerCount), log);
    }

    /** `who` began its call with the last step of `begun` and has only gone on since. */
    ghost predicate Going(who: Agent)
      reads this
    {
      && |begun| > 0 && begun <= log && begun[|begun| - 1].0 == who
      && forall i :: |begun| <= i < |log| && log[i].0 == who ==> log[i].1.Go? || log[i].1.Expire?
    }

    /** How often the waiter has found the kernel semaphore empty. */
    ghost function Missed(): nat
      reads this
    {
      Misses(start, log)
    }

    ghost predicate Waiting(w: Waiter)
      reads this
    {
      Going(TheWaiter) && st.waiter == w
    }

    constructor (initialCount: nat, signallerCount: nat)
      ensures Valid() && st == Initial(initialCount, signallerCount) && log == []
    {
      count, tokens := initialCount, 0;
      log, begun := [], [];
      st := Initial(initialCount, signallerCount);
      start := Initial(initialCount, signallerCount);
      new;
      InitialInv(initialCount, signallerCount);
    }

    /** Everybody else runs for a while. The clause on `Left` follows (`OthersKeep`). */
    method Others(me: Agent)
      requires Tied()
      modifies this`count, this`tokens, this`st, this`log
      ensures Tied() && (CarefulRun(start, log) <==> old(CarefulRun(start, log)))
      ensures OthersRan(old(st), st, me) && Left(old(st), st, me)
      ensures old(log) <= log && NotOf(log[|old(log)|..], me) && (me.TheWaiter? ==> Missed() == old(Missed()))
    {
      assert NotOf([], me) && CarefulRun(st, []) && st == Run(st, []);
      OthersKeep(st, [], me);
    }

    ghost method Tick(who: Agent, a: Action)
      requires Logged()
      modifies this`st, this`log
      ensures Logged() && st == Exec(old(st), who, a) && log == old(log) + [(who, a)]
      ensures CarefulRun(start, log) <==> old(CarefulRun(start, log)) && Careful(old(st), who)
      ensures Missed() == old(Missed()) + (if who.TheWaiter? && a.Go? && Unserved(old(st)) then 1 else 0)
    {
      if CarefulRun(start, log) {
        ExecInvIffCareful(st, who, a);
      }
      hide Inv, Exec, Careful, Unserved;
      st := Exec(st, who, a);
      log := log + [(who, a)];
      assert log[..|log| - 1] == old(log);
    }

    /** The first step of a call. */
    ghost method Begin(who: Agent, first: Action)
      requires Logged() && CarefulRun(start, log)
      requires who.TheWaiter? || (who.i < |st.signallers| && st.signallers[who.i].Quiet?)
      modifies this`st, this`log, this`begun
      ensures Logged() && CarefulRun(start, log) && Going(who)
      ensures st == Exec(old(st), who, first) && begun == log == old(log) + [(who, first)]
      ensures Missed() >= old(Missed())
    {
      hide Inv, Exec, Run, CarefulRun, Misses;
      begun := log + [(who, first)];
      Tick(who, first);
    }

    /** What the steps since `before` amount to, when `who` began a call there. */
    lemma CallsRan(s: State, before: seq<(Agent, Action)>, who: Agent, first: Action)
      requires Tied() && Going(who) && begun == before + [(who, first)] && s == Run(start, before)
      ensures CallRan(s, st, who, first)
      ensures Valid() && who.TheWaiter? && first.StartWait? && s.waiter.Out? && Inv(s) && GaveUp(st.waiter) ==>
        WaitSawNone(s, st, first.kind)
      ensures before <= log && st == Run(s, log[|before|..])
      ensures Missed() == Misses(start, before) + Misses(s, log[|before|..])
    {
      hide Inv, Run, CarefulRun, SawNone, Misses;
      var schedule := log[|before|..];
      assert log == before + schedule;
      MissesAppend(start, before, schedule);
      RunAppend(start, before, schedule);
      CarefulAppend(start, before, schedule);
      assert IsCall(schedule, who, first);
      if Valid() && who.TheWaiter? && first.StartWait? && s.waiter.Out? && Inv(s) {
        WaitCall(s, first.kind, schedule);
      }
    }

    /** One turn of a polling loop: a positive count is taken. */
    method Poll() returns (taken: bool)
      requires Valid() && Going(TheWaiter) && (st.waiter.TryLoad? || st.waiter.SpinLoad?)
      modifies this`count, this`tokens, this`st, this`log
      ensures Valid() && Going(TheWaiter) && st.taken == old(st).taken + (if taken then 1 else 0)
      ensures taken ==> st.waiter == Out(Acquired)
      ensures !taken ==> st.waiter == AfterMiss(old(st).waiter)
      ensures Missed() >= old(Missed())
    {
      hide Inv, InFlight, Run, CarefulRun, Misses;
      Others(TheWaiter);
      taken := count > 0;
      Tick(TheWaiter, Go);
      if taken {
        Others(TheWaiter);
        count := count - 1;
        Tick(TheWaiter, Go);
      }
    }

    /** tryWait: a failure saw every signal consumed. */
    method TryWait() returns (ok: bool)
      requires Valid() && st.waiter.Out?
      modifies this`count, this`tokens, this`st, this`log, this`begun
      ensures Valid() && CallRan(old(st), st, TheWaiter, StartWait(TryOnly))
      ensures st.waiter == Out(if ok then Acquired else NotAvailable)
      ensures st.taken == old(st).taken + (if ok then 1 else 0)
      ensures !ok ==> WaitSawNone(old(st), st, TryOnly)
    {
      hide Inv, InFlight, Run, CarefulRun, Misses;
      Begin(TheWaiter, StartWait(TryOnly));
      ok := Poll();
      CallsRan(old(st), old(log), TheWaiter, StartWait(TryOnly));
    }

    /** m_sema.wait() or timed_wait(), of which `patience` turns are followed; None is a
        call that still waits. */
    method SemaWait(kind: Kind, patience: nat) returns (r: Option<bool>)
      requires Valid() && Waiting(Blocked(kind)) && !kind.TryOnly?
      modifies this`count, this`tokens, this`st, this`log
      ensures Valid() && Going(TheWaiter) && st.taken == old(st).taken + (if r == Some(true) then 1 else 0)
      ensures st.waiter == if r == Some(true) then Out(Acquired) else if r == Some(false) then Undo else Blocked(kind)
      ensures kind.Forever? ==> r != Some(false)
      ensures Missed() >= old(Missed()) + (if r.None? then patience else 0)
    {
      hide Inv, InFlight, Run, CarefulRun, Misses;
      var left := patience;
      while left > 0
        invariant Valid() && Waiting(Blocked(kind)) && st.taken == old(st).taken
        invariant 0 <= left <= patience && Missed() >= old(Missed()) + patience - left
      {
        Others(TheWaiter);
        var expires: bool := *;
        if kind.Timed? && expires {
          Tick(TheWaiter, Expire);
          return Some(false);
        }
        if tokens > 0 {
          tokens := tokens - 1;
          Tick(TheWaiter, Go);
          return Some(true);
        }
        Tick(TheWaiter, Go);
        left := left - 1;
      }
      return None;
    }

    /** The loop after a time-out; a turn of it is repeated only while a signaller
        that has raised the count has not posted its token. */
    method TakeBack(patience: nat) returns (r: Option<bool>)
      requires Valid() && Waiting(Undo)
      modifies this`count, this`tokens, this`st, this`log
      ensures Valid() && Going(TheWaiter) && st.taken == old(st).taken + (if r == Some(true) then 1 else 0)
      ensures st.waiter == if r == Some(true) then Out(Acquired) else if r == Some(false) then Out(TimedOut) else Undo
      ensures Missed() >= old(Missed()) + (if r.None? then patience else 0)
    {
      hide Inv, InFlight, Run, CarefulRun, Misses;
      var left := patience;
      while left > 0
        invariant Valid() && Waiting(Undo) && st.taken == old(st).taken
        invariant 0 <= left <= patience && Missed() >= old(Missed()) + patience - left
      {
        var restored := Restore();
        if restored {
          return Some(false);
        }
        var again := DecrementAgain();
        if again {
          Others(TheWaiter);
          var got := tokens > 0;
          if got {
            tokens := tokens - 1;
          }
          Tick(TheWaiter, Go);
          if got {
            return Some(true);
          }
        }
        left := left - 1;
      }
      return None;
    }

    method Restore() returns (restored: bool)
      requires Valid() && Waiting(Undo)
      modifies this`count, this`tokens, this`st, this`log
      ensures Valid() && Going(TheWaiter) && st.taken == old(st).taken
      ensures st.waiter == if restored then Out(TimedOut) else Redo
      ensures Missed() >= old(Missed())
    {
      hide Inv, InFlight, Run, CarefulRun, Misses;
      Others(TheWaiter);
      var oldCount := count;
      count := count + 1;
      Tick(TheWaiter, Go);
      restored := oldCount < 0;
    }

    method DecrementAgain() returns (positive: bool)
      requires Valid() && Waiting(Redo)
      modifies this`count, this`tokens, this`st, this`log
      ensures Valid() && Going(TheWaiter) && st.taken == old(st).taken
      ensures st.waiter == if positive then TakeToken else Undo
      ensures positive && Missed() >= old(Missed())
    {
      hide Inv, InFlight, Run, CarefulRun, Misses;
      Others(TheWaiter);
      FindsSignal(st);
      var oldCount := count;
      count := count - 1;
      Tick(TheWaiter, Go);
      positive := oldCount > 0;
    }

    method Decrement(kind: Kind) returns (taken: bool)
      requires Valid() && Waiting(Dec(kind))
      modifies this`count, this`tokens, this`st, this`log
      ensures Valid() && Going(TheWaiter) && st.taken == old(st).taken + (if taken then 1 else 0)
      ensures st.waiter == if taken then Out(Acquired) else Blocked(kind)
      ensures Missed() >= old(Missed())
    {
      hide Inv, InFlight, Run, CarefulRun, Misses;
      Others(TheWaiter);
      var oldCount := count;
      count := count - 1;
      Tick(TheWaiter, Go);
      taken := oldCount > 0;
    }

    /** The polling loop, and the decrement that ends it. */
    method Spin(kind: Kind) returns (ok: bool)
      requires Valid() && Waiting(SpinLoad(kind, SPIN))
      modifies this`count, this`tokens, this`st, this`log
      ensures Valid() && Going(TheWaiter) && st.taken == old(st).taken + (if ok then 1 else 0)
      ensures st.waiter == if ok then Out(Acquired) else Blocked(kind)
      ensures Missed() >= old(Missed())
    {
      hide Inv, InFlight, Run, CarefulRun, Misses;
      var spin := SPIN;
      while spin > 0
        invariant 0 <= spin <= SPIN && Valid() && Going(TheWaiter) && st.taken == old(st).taken
        invariant Missed() >= old(Missed())
        invariant st.waiter == if spin > 0 then SpinLoad(kind, spin) else Dec(kind)
      {
        ok := Poll();
        if ok {
          return true;
        }
        spin := spin - 1;
      }
      ok := Decrement(kind);
    }

    /** wait(), or wait(timeout) when `kind` is timed: poll once, spin, then block. A
        call that returns true took one signal; one that returns false took none and saw
        every signal consumed; one that still waits has found the kernel semaphore empty at
        least `patience` times. */
    method Wait(kind: Kind, patience: nat) returns (r: Option<bool>)
      requires Valid() && st.waiter.Out? && !kind.TryOnly?
      modifies this`count, this`tokens, this`st, this`log, this`begun
      ensures Valid() && CallRan(old(st), st, TheWaiter, StartWait(kind))
      ensures st.taken == old(st).taken + (if r == Some(true) then 1 else 0)
      ensures r.Some? ==> st.waiter == Out(if r.value then Acquired else TimedOut)
      ensures r == Some(false) ==> WaitSawNone(old(st), st, kind)
      ensures kind.Forever? ==> r != Some(false)
      ensures old(log) <= log && st == Run(old(st), log[|old(log)|..])
      ensures r.None? ==> Misses(old(st), log[|old(log)|..]) >= patience
    {
      hide Inv, InFlight, Run, CarefulRun, Misses;
      Begin(TheWaiter, StartWait(kind));
      hide Exec;
      var ok := Poll();
      if !ok {
        ok := Spin(kind);
      }
      if ok {
        r := Some(true);
      } else {
        r := SemaWait(kind, patience);
        if r == Some(false) {
          r := TakeBack(patience);
        }
      }
      CallsRan(old(st), old(log), TheWaiter, StartWait(kind));
    }

    /** What the steps since `before` amount to, when signaller `i` began a call there and
        made its addition with the step behind `at`. */
    lemma SignalRan(s: State, before: seq<(Agent, Action)>, at: seq<(Agent, Action)>, i: nat, n: nat, waiting: bool)
      requires Tied() && Going(ASignaller(i)) && begun == before + [(ASignaller(i), StartSignal(n))]
      requires s == Run(start, before) && before <= at && at + [(ASignaller(i), Go)] <= log
      requires var m := Run(start, at); i < |m.signallers| && m.signallers[i] == Add(n) && (waiting <==> m.count < 0)
      requires Run(start, at + [(ASignaller(i), Go)]).count == Run(start, at).count + n
      ensures before <= log && st == Run(s, log[|before|..]) && SignalFound(s, log[|before|..], i, n, waiting)
    {
      hide Inv, Run, CarefulRun;
      var schedule, j := log[|before|..], |at| - |before|;
      assert log == before + schedule;
      assert at == before + schedule[..j];
      RunAppend(start, before, schedule);
      RunAppend(start, before, schedule[..j]);
      assert at + [(ASignaller(i), Go)] == before + schedule[..j + 1];
      RunAppend(start, before, schedule[..j + 1]);
      assert schedule[j] == log[|at|] == (at + [(ASignaller(i), Go)])[|at|];
      assert IsCall(schedule, ASignaller(i), StartSignal(n));
      assert AddsAt(s, schedule, i, n, waiting, j);
    }

    ghost predicate Signalling(i: nat, g: Signaller)
      reads this
    {
      i < |st.signallers| && Going(ASignaller(i)) && st.signallers[i] == g
    }

    /** m_count.fetch_add. `at` is the log before it. */
    method AddCount(i: nat, n: nat) returns (oldCount: int, ghost at: seq<(Agent, Action)>)
      requires Valid() && Signalling(i, Add(n))
      modifies this`count, this`tokens, this`st, this`log
      ensures Tied() && Signalling(i, if oldCount < 0 then Post else Quiet)
      ensures |st.signallers| == |old(st).signallers| && st.signalled >= old(st).signalled + n
      ensures old(log) <= at && log == at + [(ASignaller(i), Go)]
      ensures var m := Run(start, at);
        && i < |m.signallers| && m.signallers[i] == Add(n) && (oldCount < 0 <==> m.count < 0)
        && Run(start, log).count == m.count + n
      ensures CarefulRun(start, log) <==> n >= 1 || oldCount >= 0
    {
      hide Inv, InFlight, Run, CarefulRun, Misses;
      Others(ASignaller(i));
      oldCount := count;
      at := log;
      count := count + n;
      Tick(ASignaller(i), Go);
    }

    method PostToken(i: nat)
      requires Tied() && Signalling(i, Post)
      modifies this`count, this`tokens, this`st, this`log
      ensures Tied() && Signalling(i, Quiet) && (CarefulRun(start, log) <==> old(CarefulRun(start, log)))
      ensures |st.signallers| == |old(st).signallers| && st.signalled >= old(st).signalled && old(log) <= log
    {
      hide Inv, InFlight, Run, CarefulRun, Misses;
      Others(ASignaller(i));
      tokens := tokens + 1;
      Tick(ASignaller(i), Go);
    }

    /** signal. `waiting` is whether its addition found the count below zero; a signal of
        zero that did is what the semaphore does not survive. */
    method Signal(i: nat, n: nat) returns (ghost waiting: bool)
      requires Valid() && i < |st.signallers| && st.signallers[i] == Quiet
      modifies this`count, this`tokens, this`st, this`log, this`begun
      ensures Tied() && old(log) <= log && st == Run(old(st), log[|old(log)|..])
      ensures SignalFound(old(st), log[|old(log)|..], i, n, waiting)
      ensures |st.signallers| == |old(st).signallers| && st.signallers[i] == Quiet
      ensures st.signalled >= old(st).signalled + n
      ensures Valid() <==> n >= 1 || !waiting
    {
      hide Inv, InFlight, Run, CarefulRun, Misses, LightweightSemaphore.Going;
      Begin(ASignaller(i), StartSignal(n));
      ghost var first := log;
      hide Exec;
      var oldCount: int;
      ghost var at: seq<(Agent, Action)>;
      oldCount, at := AddCount(i, n);
      waiting := oldCount < 0;
      if oldCount < 0 {
        PostToken(i);
      }
      assert old(log) <= first;
      SignalRan(old(st), old(log), at, i, n, waiting);
    }
  }

  lemma FindsSignal(s: State)
    requires Inv(s) && s.waiter.Redo?
    ensures s.count > 0
  {
  }
}
