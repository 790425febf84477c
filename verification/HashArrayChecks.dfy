/** The debug checks of insertInternal (libs/folly/folly/AtomicHashArray-inl.h:173, 190-191 and
    202). The first two hold in every run. The third, that a cell about to be waited for or
    compared is not empty, fails in runs where a value constructor throws, and this module
    says exactly when. */
module HashArrayChecks {
  import opened Common
  import opened HashArray
  import HashArrayCalls

  // ----- The check of line 202 -----

  predicate AtWait(l: Local) { l.Ins? && l.pc.Wait? }

  /** The threads that have come to the waiting loop and not accessed the cell there yet:
      their next access is the check. */
  function ArrivedAfter(arrived: set<nat>, s: State, s': State, t: nat, a: Action): set<nat> {
    if t >= |s.threads| || t >= |s'.threads| || !a.Go? then arrived
    else if AtWait(s'.threads[t]) && !AtWait(s.threads[t]) then arrived + {t}
    else arrived - {t}
  }

  function Arrived(cfg: Config, s: State, schedule: seq<(nat, Action)>): set<nat> {
    if |schedule| == 0 then {}
    else
      var less, last := schedule[..|schedule| - 1], schedule[|schedule| - 1];
      ArrivedAfter(Arrived(cfg, s, less), Run(cfg, s, less), Run(cfg, s, schedule), last.0, last.1)
  }

  predicate EmptyFor(cfg: Config, cells: seq<Cell>, l: Local) {
    l.Ins? && l.j < cfg.cap && |cells| == cfg.cap && cells[Path(cfg, l.key, l.j)].Empty?
  }

  /** The check of thread `t` is its next access, and fails. */
  predicate CheckFails(cfg: Config, s: State, arrived: set<nat>, t: nat) {
    t < |s.threads| && AtWait(s.threads[t]) && t in arrived && EmptyFor(cfg, s.cells, s.threads[t])
  }

  /** The thread is about to make the check, now or after taking back its pending count. */
  predicate ToCheck(arrived: set<nat>, t: nat, l: Local) {
    l.Ins? && (l.pc.LostDown? || (l.pc.Wait? && t in arrived))
  }

  predicate SafeAt(cfg: Config, s: State, arrived: set<nat>, t: nat)
    requires t < |s.threads|
  {
    ToCheck(arrived, t, s.threads[t]) ==> !EmptyFor(cfg, s.cells, s.threads[t])
  }

  /** Nobody who is about to make the check looks at an empty cell. */
  predicate Safe(cfg: Config, s: State, arrived: set<nat>) {
    forall t :: 0 <= t < |s.threads| ==> SafeAt(cfg, s, arrived, t)
  }

  predicate SameCell(cfg: Config, l: Local, m: Local) {
    && l.Ins? && m.Ins? && l.j < cfg.cap && m.j < cfg.cap
    && Path(cfg, l.key, l.j) == Path(cfg, m.key, m.j)
  }

  /** Thread `t`'s constructor throws in a cell that thread `u` is about to check. */
  predicate Disturbs(cfg: Config, s: State, arrived: set<nat>, t: nat, a: Action, u: nat) {
    && t < |s.threads| && u < |s.threads| && a.Go? && a.throws && s.threads[t].Ins? && s.threads[t].pc.Build?
    && ToCheck(arrived, u, s.threads[u]) && SameCell(cfg, s.threads[t], s.threads[u])
  }

  ghost predicate Disturbing(cfg: Config, s: State, arrived: set<nat>, t: nat, a: Action) {
    exists u: nat :: Disturbs(cfg, s, arrived, t, a, u)
  }

  /** A cell becomes empty only by a throwing constructor in it. */
  lemma EmptiedByThrow(cfg: Config, s: State, t: nat, a: Action, c: nat)
    requires Inv(cfg, s) && c < cfg.cap && !s.cells[c].Empty?
    ensures |Exec(cfg, s, t, a).cells| == cfg.cap
    ensures Exec(cfg, s, t, a).cells[c].Empty? <==>
      && t < |s.threads| && a.Go? && a.throws && s.threads[t].Ins? && s.threads[t].pc.Build?
      && s.threads[t].j < cfg.cap && Path(cfg, s.threads[t].key, s.threads[t].j) == c
  {
    KeepsCellCount(cfg, s, t, a);
    if t < |s.threads| {
      InvThread(cfg, s, t);
    }
    hide Inv, Path, Prefix, Chain, Refused, InsertLocal, FindStep, EraseStep;
  }

  /** The accesses that lead to the check write no cell, and all but the count's decrement
      see that the cell is not empty. */
  lemma ComesToCheck(cfg: Config, s: State, t: nat, a: Action)
    requires Inv(cfg, s) && t < |s.threads| && a.Go? && s.threads[t].Ins?
    ensures |Exec(cfg, s, t, a).threads| == |s.threads| && s.threads[t].j < cfg.cap
    ensures var l, l' := s.threads[t], Exec(cfg, s, t, a).threads[t];
      l'.Ins? && (l'.pc.LostDown? || (l'.pc.Wait? && !l.pc.Wait?)) ==>
        && l'.key == l.key && l'.j == l.j && (l.pc.LostDown? || !s.cells[Path(cfg, l.key, l.j)].Empty?)
  {
    HashArrayCalls.InsertGoes(cfg, s, t, a);
    hide Inv, Path, Exec;
  }

  /** Who comes to the check has just seen that the cell is not empty. */
  lemma OwnCheckSafe(cfg: Config, s: State, arrived: set<nat>, t: nat, a: Action)
    requires Inv(cfg, s) && t < |s.threads| && a.Go? && SafeAt(cfg, s, arrived, t)
    ensures var s' := Exec(cfg, s, t, a);
      |s'.threads| == |s.threads| && SafeAt(cfg, s', ArrivedAfter(arrived, s, s', t, a), t)
  {
    InvThread(cfg, s, t);
    CallGoesOn(cfg, s, t, a);
    var l, l' := s.threads[t], Exec(cfg, s, t, a).threads[t];
    hide Inv, Path, Exec;
    if l.Ins? {
      ComesToCheck(cfg, s, t, a);
      if l'.Ins? && (l'.pc.LostDown? || (l'.pc.Wait? && !l.pc.Wait?)) {
        EmptiedByThrow(cfg, s, t, a, Path(cfg, l.key, l.j));
        if l.pc.Build? {
          NotBuilding(cfg, s, t, a);
        }
      }
    }
  }

  lemma NotBuilding(cfg: Config, s: State, t: nat, a: Action)
    requires Inv(cfg, s) && t < |s.threads| && a.Go? && s.threads[t].Ins? && s.threads[t].pc.Build?
    ensures |Exec(cfg, s, t, a).threads| == |s.threads|
    ensures var l' := Exec(cfg, s, t, a).threads[t]; l'.Ins? && (l'.pc.ThrownDown? || l'.pc.DoneDown?)
  {
    HashArrayCalls.InsertGoes(cfg, s, t, a);
    hide Inv, Path, Exec;
  }

  lemma OtherCheckSafe(cfg: Config, s: State, arrived: set<nat>, t: nat, a: Action, u: nat)
    requires Inv(cfg, s) && u < |s.threads| && (u != t || !a.Go?) && SafeAt(cfg, s, arrived, u)
    ensures var s' := Exec(cfg, s, t, a); var arrived' := ArrivedAfter(arrived, s, s', t, a);
      |s'.threads| == |s.threads| && (SafeAt(cfg, s', arrived', u) <==> !Disturbs(cfg, s, arrived, t, a, u))
  {
    KeepsThreadCount(cfg, s, t, a);
    InvThread(cfg, s, u);
    if u != t {
      OtherThreads(cfg, s, u, t, a);
    }
    var l := s.threads[u];
    if l.Ins? {
      var c := Path(cfg, l.key, l.j);
      if !s.cells[c].Empty? {
        EmptiedByThrow(cfg, s, t, a, c);
      }
    }
    hide Inv, Path, Prefix, Chain, Refused, InsertStep, FindStep, EraseStep, CasStep;
  }

  /** Exactly when a step keeps everybody safe: unless it is a throwing constructor in a cell
      that another thread is about to check. */
  lemma StepSafeIff(cfg: Config, s: State, arrived: set<nat>, t: nat, a: Action)
    requires Inv(cfg, s) && Safe(cfg, s, arrived)
    ensures var s' := Exec(cfg, s, t, a);
      Safe(cfg, s', ArrivedAfter(arrived, s, s', t, a)) <==> !Disturbing(cfg, s, arrived, t, a)
  {
    var s' := Exec(cfg, s, t, a);
    var arrived' := ArrivedAfter(arrived, s, s', t, a);
    KeepsThreadCount(cfg, s, t, a);
    forall u | 0 <= u < |s.threads|
      ensures SafeAt(cfg, s', arrived', u) <==> !Disturbs(cfg, s, arrived, t, a, u)
    {
      assert SafeAt(cfg, s, arrived, u);
      if u == t && a.Go? {
        OwnCheckSafe(cfg, s, arrived, t, a);
      } else {
        OtherCheckSafe(cfg, s, arrived, t, a, u);
      }
    }
    hide Inv, Exec, SafeAt, ArrivedAfter;
  }

  ghost predicate SafeUpTo(cfg: Config, s: State, schedule: seq<(nat, Action)>) {
    forall n :: 0 <= n <= |schedule| ==> Safe(cfg, Run(cfg, s, schedule[..n]), Arrived(cfg, s, schedule[..n]))
  }

  /** The step of `schedule` after its first `n` is a throwing constructor in a cell about to
      be checked. */
  ghost predicate DisturbedAt(cfg: Config, s: State, schedule: seq<(nat, Action)>, n: nat)
    requires n < |schedule|
  {
    Disturbing(cfg, Run(cfg, s, schedule[..n]), Arrived(cfg, s, schedule[..n]), schedule[n].0, schedule[n].1)
  }

  ghost predicate Undisturbed(cfg: Config, s: State, schedule: seq<(nat, Action)>) {
    forall n: nat :: n < |schedule| ==> !DisturbedAt(cfg, s, schedule, n)
  }

  /** One step longer. */
  lemma OneMore(cfg: Config, s: State, schedule: seq<(nat, Action)>)
    requires |schedule| > 0
    ensures var less := schedule[..|schedule| - 1];
      && (SafeUpTo(cfg, s, schedule) <==>
            SafeUpTo(cfg, s, less) && Safe(cfg, Run(cfg, s, schedule), Arrived(cfg, s, schedule)))
      && (Undisturbed(cfg, s, schedule) <==>
            Undisturbed(cfg, s, less) && !DisturbedAt(cfg, s, schedule, |schedule| - 1))
  {
    hide Run, Arrived, Safe, Disturbing;
    var less := schedule[..|schedule| - 1];
    assert schedule[..|schedule|] == schedule;
    assert forall n :: 0 <= n <= |less| ==> less[..n] == schedule[..n];
    assert forall n: nat :: n < |less| ==> DisturbedAt(cfg, s, less, n) == DisturbedAt(cfg, s, schedule, n);
    if SafeUpTo(cfg, s, less) && Safe(cfg, Run(cfg, s, schedule), Arrived(cfg, s, schedule)) {
      forall n | 0 <= n <= |schedule|
        ensures Safe(cfg, Run(cfg, s, schedule[..n]), Arrived(cfg, s, schedule[..n]))
      {
        if n < |schedule| {
          assert less[..n] == schedule[..n];
        }
      }
    }
    if SafeUpTo(cfg, s, schedule) {
      forall n | 0 <= n <= |less|
        ensures Safe(cfg, Run(cfg, s, less[..n]), Arrived(cfg, s, less[..n]))
      {
        assert less[..n] == schedule[..n];
      }
    }
  }

  /** Over every run: all who are about to check are safe all along if and only if no
      constructor throws in a cell about to be checked. */
  lemma {:induction false} RunSafeIff(cfg: Config, n: nat, schedule: seq<(nat, Action)>)
    requires cfg.cap > 0
    ensures SafeUpTo(cfg, Initial(cfg, n), schedule) <==> Undisturbed(cfg, Initial(cfg, n), schedule)
    decreases |schedule|
  {
    var s0 := Initial(cfg, n);
    if |schedule| > 0 {
      hide Inv, Exec, Safe, Disturbing, SafeUpTo, Undisturbed, ArrivedAfter;
      var less, last := schedule[..|schedule| - 1], schedule[|schedule| - 1];
      RunSafeIff(cfg, n, less);
      OneMore(cfg, s0, schedule);
      InitialInv(cfg, n);
      RunInv(cfg, s0, less);
      if SafeUpTo(cfg, s0, less) {
        SafeAtEnd(cfg, s0, less);
        StepSafeIff(cfg, Run(cfg, s0, less), Arrived(cfg, s0, less), last.0, last.1);
      }
    }
  }

  lemma SafeAtEnd(cfg: Config, s: State, schedule: seq<(nat, Action)>)
    requires SafeUpTo(cfg, s, schedule)
    ensures Safe(cfg, Run(cfg, s, schedule), Arrived(cfg, s, schedule))
  {
    assert schedule[..|schedule|] == schedule;
  }

  ghost predicate NobodyThrows(schedule: seq<(nat, Action)>) {
    forall n :: 0 <= n < |schedule| && schedule[n].1.Go? ==> !schedule[n].1.throws
  }

  /** So with constructors that do not throw the check never fails. */
  lemma CheckHoldsWithoutThrows(cfg: Config, n: nat, schedule: seq<(nat, Action)>, t: nat)
    requires cfg.cap > 0 && NobodyThrows(schedule)
    ensures !CheckFails(cfg, Run(cfg, Initial(cfg, n), schedule), Arrived(cfg, Initial(cfg, n), schedule), t)
  {
    hide Run, Arrived;
    RunSafeIff(cfg, n, schedule);
    var s := Run(cfg, Initial(cfg, n), schedule);
    SafeAtEnd(cfg, Initial(cfg, n), schedule);
    assert t < |s.threads| ==> SafeAt(cfg, s, Arrived(cfg, Initial(cfg, n), schedule), t);
  }

  lemma ArrivedOne(cfg: Config, s: State, schedule: seq<(nat, Action)>, t: nat, a: Action)
    ensures var all := schedule + [(t, a)]; var m := Run(cfg, s, schedule);
      && Run(cfg, s, all) == Exec(cfg, m, t, a)
      && Arrived(cfg, s, all) == ArrivedAfter(Arrived(cfg, s, schedule), m, Exec(cfg, m, t, a), t, a)
  {
    assert (schedule + [(t, a)])[..|schedule|] == schedule;
  }

  /** And after every constructor that throws in a cell about to be checked, the check fails
      in a run that goes on with at most one step of the thread that makes it. */
  lemma DisturbedCanFail(cfg: Config, n: nat, schedule: seq<(nat, Action)>, t: nat, a: Action, u: nat)
    returns (more: seq<(nat, Action)>)
    requires cfg.cap > 0
    requires Disturbs(cfg, Run(cfg, Initial(cfg, n), schedule), Arrived(cfg, Initial(cfg, n), schedule), t, a, u)
    ensures var s0 := Initial(cfg, n); var all := schedule + [(t, a)] + more;
      |more| <= 1 && CheckFails(cfg, Run(cfg, s0, all), Arrived(cfg, s0, all), u)
  {
    var s0 := Initial(cfg, n);
    InitialInv(cfg, n);
    RunInv(cfg, s0, schedule);
    var s, arrived := Run(cfg, s0, schedule), Arrived(cfg, s0, schedule);
    ArrivedOne(cfg, s0, schedule, t, a);
    hide Run, Arrived;
    InvThread(cfg, s, t);
    ThrowEmpties(cfg, s, arrived, t, a, u);
    var s1 := Exec(cfg, s, t, a);
    ExecInv(cfg, s, t, a);
    if s.threads[u].pc.Wait? {
      more := [];
      assert schedule + [(t, a)] + more == schedule + [(t, a)];
    } else {
      more := [(u, Go(false, false))];
      ArrivedOne(cfg, s0, schedule + [(t, a)], u, Go(false, false));
      LostDownArrives(cfg, s1, u);
    }
  }

  lemma ThrowEmpties(cfg: Config, s: State, arrived: set<nat>, t: nat, a: Action, u: nat)
    requires Inv(cfg, s) && Disturbs(cfg, s, arrived, t, a, u)
    ensures var s' := Exec(cfg, s, t, a);
      && |s'.threads| == |s.threads| && s'.threads[u] == s.threads[u] && EmptyFor(cfg, s'.cells, s'.threads[u])
      && ToCheck(ArrivedAfter(arrived, s, s', t, a), u, s'.threads[u])
  {
    InvThread(cfg, s, t);
    OtherThreads(cfg, s, u, t, a);
    EmptiedByThrow(cfg, s, t, a, Path(cfg, s.threads[t].key, s.threads[t].j));
    hide Inv, Exec, Path;
  }

  lemma LostDownArrives(cfg: Config, s: State, u: nat)
    requires Inv(cfg, s) && u < |s.threads| && s.threads[u].Ins? && s.threads[u].pc.LostDown?
    requires EmptyFor(cfg, s.cells, s.threads[u])
    ensures var s' := Exec(cfg, s, u, Go(false, false));
      && |s'.threads| == |s.threads| && s'.threads[u] == s.threads[u].(pc := Wait) && s'.cells == s.cells
  {
    hide Inv, Path;
  }

  // ----- Two runs in which it fails -----

  /** One cell. */
  function One(): Config { Config(1, (k: Key) => 0, 0, false, 1) }

  /** Thread 0 inserts 7 and thread 1 inserts 8. */
  function At(cell: Cell, first: Pc, second: Local, pending: nat): State {
    State([cell], [Ins(first, 7, 0, 0), second], pending, 0, 0, false, 0, map[], {})
  }

  function Second(pc: Pc): Local { Ins(pc, 8, 0, 0) }

  lemma OneCell(k: Key)
    ensures Path(One(), k, 0) == 0
  {
  }

  /** A step whose outcome is known, at the end of a run. */
  lemma Then(moves: seq<(nat, Action)>, s: State, arrived: set<nat>, t: nat, a: Action, s': State, arrived': set<nat>)
    returns (more: seq<(nat, Action)>)
    requires s == Run(One(), Initial(One(), 2), moves) && arrived == Arrived(One(), Initial(One(), 2), moves)
    requires s' == Exec(One(), s, t, a) && arrived' == ArrivedAfter(arrived, s, s', t, a)
    ensures more == moves + [(t, a)]
    ensures s' == Run(One(), Initial(One(), 2), more) && arrived' == Arrived(One(), Initial(One(), 2), more)
  {
    more := moves + [(t, a)];
    ArrivedOne(One(), Initial(One(), 2), moves, t, a);
  }

  lemma FirstSteps(second: Local)
    ensures Exec(One(), At(Empty, LoadCell, second, 0), 0, Go(false, false)) == At(Empty, CountUp, second, 0)
    ensures Exec(One(), At(Empty, CountUp, second, 0), 0, Go(false, false)) == At(Empty, LoadFull, second, 1)
    ensures Exec(One(), At(Empty, LoadFull, second, 1), 0, Go(false, false)) == At(Empty, TryLock, second, 1)
  {
    OneCell(7);
    hide Path;
    assert [Ins(LoadCell, 7, 0, 0), second][0 := Ins(CountUp, 7, 0, 0)] == [Ins(CountUp, 7, 0, 0), second];
    assert [Ins(CountUp, 7, 0, 0), second][0 := Ins(LoadFull, 7, 0, 0)] == [Ins(LoadFull, 7, 0, 0), second];
    assert [Ins(LoadFull, 7, 0, 0), second][0 := Ins(TryLock, 7, 0, 0)] == [Ins(TryLock, 7, 0, 0), second];
  }

  /** Thread 0 is before its lock, thread 1 has not begun. */
  lemma ToTryLock() returns (moves: seq<(nat, Action)>)
    ensures moves == [(0, StartInsert(7, 0)), (0, Go(false, false)), (0, Go(false, false)), (0, Go(false, false))]
    ensures Run(One(), Initial(One(), 2), moves) == At(Empty, TryLock, Idle, 1)
    ensures Arrived(One(), Initial(One(), 2), moves) == {}
  {
    FirstSteps(Idle);
    var s0 := Initial(One(), 2);
    assert s0.cells == [Empty] && s0.threads == [Idle, Idle];
    assert s0.threads[0 := Ins(LoadCell, 7, 0, 0)] == [Ins(LoadCell, 7, 0, 0), Idle];
    assert Exec(One(), s0, 0, StartInsert(7, 0)) == At(Empty, LoadCell, Idle, 0);
    assert Run(One(), s0, []) == s0 && Arrived(One(), s0, []) == {};
    hide Run, Exec, Arrived;
    moves := Then([], s0, {}, 0, StartInsert(7, 0), At(Empty, LoadCell, Idle, 0), {});
    moves := Then(moves, At(Empty, LoadCell, Idle, 0), {}, 0, Go(false, false), At(Empty, CountUp, Idle, 0), {});
    moves := Then(moves, At(Empty, CountUp, Idle, 0), {}, 0, Go(false, false), At(Empty, LoadFull, Idle, 1), {});
    moves := Then(moves, At(Empty, LoadFull, Idle, 1), {}, 0, Go(false, false), At(Empty, TryLock, Idle, 1), {});
  }

  lemma LockAndThrow(second: Local, pending: nat)
    ensures Exec(One(), At(Empty, TryLock, second, pending), 0, Go(false, false))
      == At(Locked(0), Build, second, pending)
    ensures Exec(One(), At(Locked(0), Build, second, pending), 0, Go(true, false))
      == At(Empty, ThrownDown, second, pending)
  {
    OneCell(7);
    hide Path;
    assert [Ins(TryLock, 7, 0, 0), second][0 := Ins(Build, 7, 0, 0)] == [Ins(Build, 7, 0, 0), second];
    assert [Ins(Build, 7, 0, 0), second][0 := Ins(ThrownDown, 7, 0, 0)] == [Ins(ThrownDown, 7, 0, 0), second];
    assert [Empty][0 := Locked(0)] == [Locked(0)] && [Locked(0)][0 := Empty] == [Empty];
  }

  lemma SecondMoves(first: Pc, l: Local, l': Local)
    ensures [Ins(first, 7, 0, 0), l][1 := l'] == [Ins(first, 7, 0, 0), l']
  {
  }

  lemma SecondWaits()
    ensures Exec(One(), At(Locked(0), Build, Idle, 1), 1, StartInsert(8, 0))
      == At(Locked(0), Build, Second(LoadCell), 1)
    ensures Exec(One(), At(Locked(0), Build, Second(LoadCell), 1), 1, Go(false, false))
      == At(Locked(0), Build, Second(Wait), 1)
  {
    OneCell(8);
    hide Path;
    SecondMoves(Build, Idle, Second(LoadCell));
    SecondMoves(Build, Second(LoadCell), Second(Wait));
  }

  /** Thread 1 loads the key of a locked cell and goes to wait without ever trying the lock;
      then the constructor of thread 0 throws. */
  lemma FailsAfterLockedKey() returns (moves: seq<(nat, Action)>)
    ensures moves == [(0, StartInsert(7, 0)), (0, Go(false, false)), (0, Go(false, false)), (0, Go(false, false))]
      + [(0, Go(false, false)), (1, StartInsert(8, 0)), (1, Go(false, false)), (0, Go(true, false))]
    ensures CheckFails(One(), Run(One(), Initial(One(), 2), moves), Arrived(One(), Initial(One(), 2), moves), 1)
  {
    LockAndThrow(Idle, 1);
    LockAndThrow(Second(Wait), 1);
    var s1, s2 := At(Locked(0), Build, Idle, 1), At(Locked(0), Build, Second(LoadCell), 1);
    var s3, s4 := At(Locked(0), Build, Second(Wait), 1), At(Empty, ThrownDown, Second(Wait), 1);
    SecondWaits();
    OneCell(8);
    var m0 := ToTryLock();
    hide Run, Exec, Arrived, Path;
    var m1 := Then(m0, At(Empty, TryLock, Idle, 1), {}, 0, Go(false, false), s1, {});
    var m2 := Then(m1, s1, {}, 1, StartInsert(8, 0), s2, {});
    var m3 := Then(m2, s2, {}, 1, Go(false, false), s3, {1});
    moves := Then(m3, s3, {1}, 0, Go(true, false), s4, {1});
  }

  lemma SecondToTryLock()
    ensures var s := At(Empty, TryLock, Idle, 1);
      && Exec(One(), s, 1, StartInsert(8, 0)) == At(Empty, TryLock, Second(LoadCell), 1)
      && Exec(One(), At(Empty, TryLock, Second(LoadCell), 1), 1, Go(false, false))
         == At(Empty, TryLock, Second(CountUp), 1)
  {
    OneCell(8);
    hide Path;
    SecondMoves(TryLock, Idle, Second(LoadCell));
    SecondMoves(TryLock, Second(LoadCell), Second(CountUp));
  }

  lemma SecondLoadsFull()
    ensures Exec(One(), At(Empty, TryLock, Second(CountUp), 1), 1, Go(false, false))
      == At(Empty, TryLock, Second(LoadFull), 2)
    ensures Exec(One(), At(Empty, TryLock, Second(LoadFull), 2), 1, Go(false, false))
      == At(Empty, TryLock, Second(TryLock), 2)
  {
    OneCell(8);
    hide Path;
    SecondMoves(TryLock, Second(CountUp), Second(LoadFull));
    SecondMoves(TryLock, Second(LoadFull), Second(TryLock));
  }

  lemma SecondLoses()
    ensures Exec(One(), At(Locked(0), Build, Second(TryLock), 2), 1, Go(false, false))
      == At(Locked(0), Build, Second(LostDown), 2)
    ensures Exec(One(), At(Empty, ThrownDown, Second(LostDown), 2), 1, Go(false, false))
      == At(Empty, ThrownDown, Second(Wait), 1)
  {
    OneCell(8);
    hide Path;
    SecondMoves(Build, Second(TryLock), Second(LostDown));
    SecondMoves(ThrownDown, Second(LostDown), Second(Wait));
  }

  /** Thread 1 loses the lock to thread 0, whose constructor then throws. */
  lemma FailsAfterLostLock() returns (moves: seq<(nat, Action)>)
    ensures moves == [(0, StartInsert(7, 0)), (0, Go(false, false)), (0, Go(false, false)), (0, Go(false, false))]
      + [(1, StartInsert(8, 0)), (1, Go(false, false)), (1, Go(false, false)), (1, Go(false, false))]
      + [(0, Go(false, false)), (1, Go(false, false)), (0, Go(true, false)), (1, Go(false, false))]
    ensures CheckFails(One(), Run(One(), Initial(One(), 2), moves), Arrived(One(), Initial(One(), 2), moves), 1)
  {
    SecondToTryLock();
    SecondLoadsFull();
    LockAndThrow(Second(TryLock), 2);
    LockAndThrow(Second(LostDown), 2);
    SecondLoses();
    OneCell(8);
    var m0 := ToTryLock();
    hide Run, Exec, Arrived, Path;
    var s0, s1 := At(Empty, TryLock, Idle, 1), At(Empty, TryLock, Second(LoadCell), 1);
    var s2 := At(Empty, TryLock, Second(CountUp), 1);
    var m1 := Then(m0, s0, {}, 1, StartInsert(8, 0), s1, {});
    var m2 := Then(m1, s1, {}, 1, Go(false, false), s2, {});
    var s3, s4 := At(Empty, TryLock, Second(LoadFull), 2), At(Empty, TryLock, Second(TryLock), 2);
    var m3 := Then(m2, s2, {}, 1, Go(false, false), s3, {});
    var m4 := Then(m3, s3, {}, 1, Go(false, false), s4, {});
    var s5, s6 := At(Locked(0), Build, Second(TryLock), 2), At(Locked(0), Build, Second(LostDown), 2);
    var m5 := Then(m4, s4, {}, 0, Go(false, false), s5, {});
    var m6 := Then(m5, s5, {}, 1, Go(false, false), s6, {});
    var s7, s8 := At(Empty, ThrownDown, Second(LostDown), 2), At(Empty, ThrownDown, Second(Wait), 1);
    var m7 := Then(m6, s6, {}, 0, Go(true, false), s7, {});
    moves := Then(m7, s7, {}, 1, Go(false, false), s8, {1});
  }

  // ----- The other two checks -----

  /** A thread that has put its key in place finds it there, or erased by another. */
  predicate NewKeyAt(cfg: Config, s: State, t: nat)
    requires t < |s.threads|
  {
    var l := s.threads[t];
    l.Ins? && l.pc.DoneDown? ==>
      && l.j < cfg.cap && |s.cells| == cfg.cap
      && var x := s.cells[Path(cfg, l.key, l.j)]; x.Erased? || (x.Real? && x.key == l.key)
  }

  predicate NewKeys(cfg: Config, s: State) {
    forall t :: 0 <= t < |s.threads| ==> NewKeyAt(cfg, s, t)
  }

  lemma ErasedStays(cfg: Config, s: State, t: nat, a: Action, c: nat)
    requires Inv(cfg, s) && c < cfg.cap && s.cells[c].Erased?
    ensures |Exec(cfg, s, t, a).cells| == cfg.cap && Exec(cfg, s, t, a).cells[c].Erased?
  {
    KeepsCellCount(cfg, s, t, a);
    if t < |s.threads| {
      InvThread(cfg, s, t);
    }
    hide Inv, Path, Prefix, Chain, Refused;
  }

  lemma NewKeyStep(cfg: Config, s: State, t: nat, a: Action, u: nat)
    requires Inv(cfg, s) && u < |s.threads| && NewKeyAt(cfg, s, u)
    ensures |Exec(cfg, s, t, a).threads| == |s.threads| && NewKeyAt(cfg, Exec(cfg, s, t, a), u)
  {
    KeepsThreadCount(cfg, s, t, a);
    KeepsCellCount(cfg, s, t, a);
    InvThread(cfg, s, u);
    if u != t {
      OtherThreads(cfg, s, u, t, a);
      var l := s.threads[u];
      if l.Ins? && l.pc.DoneDown? {
        var c := Path(cfg, l.key, l.j);
        if s.cells[c].Erased? {
          ErasedStays(cfg, s, t, a, c);
        } else {
          CellsLater(cfg, s, t, a, c);
        }
      }
      hide Inv, Exec, Path;
    } else if a.Go? && s.threads[u].Ins? {
      NewKeyOwnStep(cfg, s, t, a);
    } else {
      if a.Go? {
        CallGoesOn(cfg, s, t, a);
      }
      hide Inv, Path, Prefix, Chain, Refused;
    }
  }

  lemma NewKeyOwnStep(cfg: Config, s: State, t: nat, a: Action)
    requires Inv(cfg, s) && t < |s.threads| && a.Go? && s.threads[t].Ins?
    ensures |Exec(cfg, s, t, a).threads| == |s.threads| && NewKeyAt(cfg, Exec(cfg, s, t, a), t)
  {
    HashArrayCalls.InsertMoves(cfg, s, t, a);
    HashArrayCalls.InsertGoes(cfg, s, t, a);
    KeepsCellCount(cfg, s, t, a);
    if s.threads[t].pc.Build? && !a.throws {
      HashArrayCalls.BuildMoves(cfg, s, t, a);
    }
    hide Inv, Path, Exec;
  }

  lemma {:induction false} NewKeysRun(cfg: Config, n: nat, schedule: seq<(nat, Action)>)
    requires cfg.cap > 0
    ensures Inv(cfg, Run(cfg, Initial(cfg, n), schedule)) && NewKeys(cfg, Run(cfg, Initial(cfg, n), schedule))
    decreases |schedule|
  {
    InitialInv(cfg, n);
    RunInv(cfg, Initial(cfg, n), schedule);
    if |schedule| > 0 {
      hide Inv, Exec, NewKeyAt;
      var less, last := schedule[..|schedule| - 1], schedule[|schedule| - 1];
      NewKeysRun(cfg, n, less);
      var s := Run(cfg, Initial(cfg, n), less);
      RunInv(cfg, Initial(cfg, n), less);
      KeepsThreadCount(cfg, s, last.0, last.1);
      forall u | 0 <= u < |s.threads|
        ensures NewKeyAt(cfg, Exec(cfg, s, last.0, last.1), u)
      {
        NewKeyStep(cfg, s, last.0, last.1, u);
      }
    }
  }

  /** In every reachable state a thread that constructs finds its cell locked, and one that
      has stored its key finds it there or erased. */
  lemma OtherChecksHold(cfg: Config, s: State, t: nat)
    requires Reachable(cfg, s) && t < |s.threads| && s.threads[t].Ins?
    ensures |s.cells| == cfg.cap && s.threads[t].j < cfg.cap
    ensures var x := s.cells[Path(cfg, s.threads[t].key, s.threads[t].j)];
      && (s.threads[t].pc.Build? ==> x == Locked(t))
      && (s.threads[t].pc.DoneDown? ==> x.Erased? || (x.Real? && x.key == s.threads[t].key))
  {
    var n: nat, schedule :| s == Run(cfg, Initial(cfg, n), schedule);
    NewKeysRun(cfg, n, schedule);
    InvThread(cfg, s, t);
    assert NewKeyAt(cfg, s, t);
  }
}
