/** What the answers of the hash array mean, over the whole run of a call: each one was
    right at an instant of the call. */
module HashArrayCalls {
  import opened Common
  import opened HashArray

  /** A schedule that begins with thread `t` starting a call and in which `t` starts no
      other. */
  ghost predicate IsCall(schedule: seq<(nat, Action)>, t: nat, start: Action) {
    |schedule| > 0 && schedule[0] == (t, start) && !start.Go? && OneCall(schedule[1..], t)
  }

  /** `s'` is where one call of `t`, finished or not, can bring `s` while the other
      threads run. */
  ghost predicate CallRan(cfg: Config, s: State, s': State, t: nat, start: Action) {
    exists schedule :: IsCall(schedule, t, start) && s' == Run(cfg, s, schedule)
  }

  lemma {:induction false} RunAppend(cfg: Config, s: State, x: seq<(nat, Action)>, y: seq<(nat, Action)>)
    ensures Run(cfg, s, x + y) == Run(cfg, Run(cfg, s, x), y)
    decreases |y|
  {
    hide Exec;
    if |y| == 0 {
      assert x + y == x;
    } else {
      RunAppend(cfg, s, x, y[..|y| - 1]);
      assert (x + y)[..|x + y| - 1] == x + y[..|y| - 1];
    }
  }

  // ----- Instants of a run -----

  predicate HoldsAt(cells: seq<Cell>, c: nat, k: Key) {
    c < |cells| && cells[c].Real? && cells[c].key == k
  }

  predicate HoldsPair(cells: seq<Cell>, c: nat, k: Key, v: Value) {
    HoldsAt(cells, c, k) && cells[c].value == v
  }

  /** Cell `c` held `k` at an instant. */
  ghost predicate SawAt(cfg: Config, s: State, schedule: seq<(nat, Action)>, c: nat, k: Key) {
    exists i :: 0 <= i <= |schedule| && HoldsAt(Run(cfg, s, schedule[..i]).cells, c, k)
  }

  /** No cell held `k` at an instant. */
  ghost predicate SawAbsent(cfg: Config, s: State, schedule: seq<(nat, Action)>, k: Key) {
    exists i :: 0 <= i <= |schedule| && Absent(Run(cfg, s, schedule[..i]).cells, k)
  }

  /** The `i`-th step was `t`'s and put `k`, which was in no cell, into cell `c` with value
      `v`. */
  ghost predicate AddsAt(cfg: Config, s: State, schedule: seq<(nat, Action)>, t: nat, c: nat, k: Key, v: Value, i: nat)
  {
    && i < |schedule| && schedule[i].0 == t
    && Absent(Run(cfg, s, schedule[..i]).cells, k) && HoldsPair(Run(cfg, s, schedule[..i + 1]).cells, c, k, v)
  }

  /** The `i`-th step was `t`'s and took `k` out of the array. */
  ghost predicate TakesAt(cfg: Config, s: State, schedule: seq<(nat, Action)>, t: nat, k: Key, i: nat) {
    && i < |schedule| && schedule[i].0 == t
    && !Absent(Run(cfg, s, schedule[..i]).cells, k) && Absent(Run(cfg, s, schedule[..i + 1]).cells, k)
  }

  ghost predicate Added(cfg: Config, s: State, schedule: seq<(nat, Action)>, t: nat, c: nat, k: Key, v: Value) {
    exists i: nat :: AddsAt(cfg, s, schedule, t, c, k, v, i)
  }

  ghost predicate Took(cfg: Config, s: State, schedule: seq<(nat, Action)>, t: nat, k: Key) {
    exists i: nat :: TakesAt(cfg, s, schedule, t, k, i)
  }

  /** No step of `t` put `k` into the array or took it out. */
  ghost predicate ChangedNothing(cfg: Config, s: State, schedule: seq<(nat, Action)>, t: nat, k: Key) {
    forall i: nat :: i < |schedule| && schedule[i].0 == t ==>
      (Absent(Run(cfg, s, schedule[..i]).cells, k) <==> Absent(Run(cfg, s, schedule[..i + 1]).cells, k))
  }

  /** The `i`-th step was `t`'s value constructor, and it threw. */
  ghost predicate ThrowsAt(cfg: Config, s: State, schedule: seq<(nat, Action)>, t: nat, i: nat) {
    && i < |schedule| && schedule[i].0 == t && schedule[i].1.Go? && schedule[i].1.throws
    && var m := Run(cfg, s, schedule[..i]); t < |m.threads| && m.threads[t].Ins? && m.threads[t].pc.Build?
  }

  ghost predicate ThrewIn(cfg: Config, s: State, schedule: seq<(nat, Action)>, t: nat) {
    exists i: nat :: ThrowsAt(cfg, s, schedule, t, i)
  }

  /** The answer `r` to the call `start` was right at an instant of the run; and a call that
      does not report a change made none. */
  ghost predicate Justified(cfg: Config, s: State, schedule: seq<(nat, Action)>, t: nat, start: Action, r: Result)
    requires !start.Go?
  {
    var k := KeyOf(start);
    match r
    case Inserted(c) => start.StartInsert? && Added(cfg, s, schedule, t, c, k, start.v)
    case Existing(c) => SawAt(cfg, s, schedule, c, k) && ChangedNothing(cfg, s, schedule, t, k)
    case Found(c) => SawAt(cfg, s, schedule, c, k) && ChangedNothing(cfg, s, schedule, t, k)
    case Removed => Took(cfg, s, schedule, t, k)
    case NotFound(_) => SawAbsent(cfg, s, schedule, k) && ChangedNothing(cfg, s, schedule, t, k)
    case NotRemoved(_) => SawAbsent(cfg, s, schedule, k) && ChangedNothing(cfg, s, schedule, t, k)
    case Full => k in Run(cfg, s, schedule).fullKeys && ChangedNothing(cfg, s, schedule, t, k)
    case Threw => ThrewIn(cfg, s, schedule, t) && ChangedNothing(cfg, s, schedule, t, k)
  }

  function KeyOf(start: Action): Key
    requires !start.Go?
  {
    start.k
  }

  /** `CallRan` with an answer that the run justifies. */
  ghost predicate CallGave(cfg: Config, s: State, s': State, t: nat, start: Action, r: Result) {
    && !start.Go?
    && exists schedule ::
         IsCall(schedule, t, start) && s' == Run(cfg, s, schedule) && Justified(cfg, s, schedule, t, start, r)
  }

  // ----- The positive answers, step by step -----

  predicate Built(pc: Pc) { pc.DoneDown? || pc.CountEntry? || pc.ReadEntries? || pc.MarkFull? }

  /** What the run has shown by the time the call is at `l`, negative answers aside. */
  ghost predicate SoFar(cfg: Config, s: State, schedule: seq<(nat, Action)>, t: nat, start: Action, l: Local) {
    match l
    case Idle => false
    case Ins(pc, k, v, j) =>
      && start == StartInsert(k, v)
      && (if Built(pc) then j < cfg.cap && Added(cfg, s, schedule, t, Path(cfg, k, j), k, v)
          else ChangedNothing(cfg, s, schedule, t, k))
      && (pc.ThrownDown? ==> ThrewIn(cfg, s, schedule, t))
    case Find(k, _, _) => start == StartFind(k) && ChangedNothing(cfg, s, schedule, t, k)
    case Erase(k, _) => start == StartErase(k) && ChangedNothing(cfg, s, schedule, t, k)
    case EraseCas(k, _, _) => start == StartErase(k) && ChangedNothing(cfg, s, schedule, t, k)
    case Done(k, r) =>
      && !start.Go? && k == KeyOf(start)
      && (r.NotFound? ==> start.StartFind?) && (r.NotRemoved? ==> start.StartErase?)
      && (r.Inserted? ==> start.StartInsert? && Added(cfg, s, schedule, t, r.idx, k, start.v))
      && (r.Existing? || r.Found? ==> SawAt(cfg, s, schedule, r.idx, k))
      && (r.Removed? ==> Took(cfg, s, schedule, t, k))
      && (r.Threw? ==> ThrewIn(cfg, s, schedule, t))
      && (!r.Inserted? && !r.Removed? ==> ChangedNothing(cfg, s, schedule, t, k))
  }

  /** A longer run has shown as much. */
  lemma SawMore(cfg: Config, s: State, less: seq<(nat, Action)>, schedule: seq<(nat, Action)>, t: nat, c: nat, k: Key,
                v: Value)
    requires less <= schedule
    ensures SawAt(cfg, s, less, c, k) ==> SawAt(cfg, s, schedule, c, k)
    ensures Added(cfg, s, less, t, c, k, v) ==> Added(cfg, s, schedule, t, c, k, v)
    ensures Took(cfg, s, less, t, k) ==> Took(cfg, s, schedule, t, k)
  {
    hide Run, Absent, HoldsAt, HoldsPair;
    if SawAt(cfg, s, less, c, k) {
      var i :| 0 <= i <= |less| && HoldsAt(Run(cfg, s, less[..i]).cells, c, k);
      assert less[..i] == schedule[..i];
    }
    if Added(cfg, s, less, t, c, k, v) {
      var i: nat :| AddsAt(cfg, s, less, t, c, k, v, i);
      assert less[..i] == schedule[..i] && less[..i + 1] == schedule[..i + 1];
      assert AddsAt(cfg, s, schedule, t, c, k, v, i);
    }
    if Took(cfg, s, less, t, k) {
      var i: nat :| TakesAt(cfg, s, less, t, k, i);
      assert less[..i] == schedule[..i] && less[..i + 1] == schedule[..i + 1];
      assert TakesAt(cfg, s, schedule, t, k, i);
    }
  }

  lemma ThrewMore(cfg: Config, s: State, less: seq<(nat, Action)>, schedule: seq<(nat, Action)>, t: nat)
    requires less <= schedule
    ensures ThrewIn(cfg, s, less, t) ==> ThrewIn(cfg, s, schedule, t)
  {
    hide Run;
    if ThrewIn(cfg, s, less, t) {
      var i: nat :| ThrowsAt(cfg, s, less, t, i);
      assert less[..i] == schedule[..i];
      assert ThrowsAt(cfg, s, schedule, t, i);
    }
  }

  /** One more step that does not change whether `k` is there, or is not `t`'s. */
  lemma NothingMore(cfg: Config, s: State, less: seq<(nat, Action)>, schedule: seq<(nat, Action)>,
                    t: nat, k: Key, u: nat, a: Action)
    requires schedule == less + [(u, a)] && ChangedNothing(cfg, s, less, t, k)
    requires u == t ==> (Absent(Run(cfg, s, less).cells, k) <==> Absent(Run(cfg, s, schedule).cells, k))
    ensures ChangedNothing(cfg, s, schedule, t, k)
  {
    hide Run, Absent;
    forall i: nat | i < |schedule| && schedule[i].0 == t
      ensures Absent(Run(cfg, s, schedule[..i]).cells, k) <==> Absent(Run(cfg, s, schedule[..i + 1]).cells, k)
    {
      if i < |less| {
        assert less[..i] == schedule[..i] && less[..i + 1] == schedule[..i + 1] && less[i] == schedule[i];
      } else {
        assert schedule[..i] == less && schedule[..i + 1] == schedule;
      }
    }
  }

  lemma SoFarMore(cfg: Config, s: State, less: seq<(nat, Action)>, schedule: seq<(nat, Action)>,
                  t: nat, start: Action, l: Local, u: nat, a: Action)
    requires schedule == less + [(u, a)] && !start.Go? && SoFar(cfg, s, less, t, start, l)
    requires u == t ==>
      (Absent(Run(cfg, s, less).cells, KeyOf(start)) <==> Absent(Run(cfg, s, schedule).cells, KeyOf(start)))
    ensures SoFar(cfg, s, schedule, t, start, l)
  {
    hide Added, Took, SawAt, Path, ChangedNothing, ThrewIn, Run, Absent;
    ThrewMore(cfg, s, less, schedule, t);
    if ChangedNothing(cfg, s, less, t, KeyOf(start)) {
      NothingMore(cfg, s, less, schedule, t, KeyOf(start), u, a);
    }
    match l {
      case Ins(_, k, v, j) =>
        if j < cfg.cap {
          SawMore(cfg, s, less, schedule, t, Path(cfg, k, j), k, v);
        }
      case Done(k, r) =>
        var c := if r.Inserted? || r.Existing? || r.Found? then r.idx else 0;
        SawMore(cfg, s, less, schedule, t, c, k, if start.StartInsert? then start.v else 0);
      case _ =>
    }
  }

  lemma LastStates(cfg: Config, s: State, less: seq<(nat, Action)>, schedule: seq<(nat, Action)>, t: nat, a: Action)
    requires schedule == less + [(t, a)]
    ensures schedule[..|less|] == less && schedule[..|less| + 1] == schedule
    ensures Run(cfg, s, schedule) == Exec(cfg, Run(cfg, s, less), t, a)
  {
    assert schedule[..|schedule| - 1] == less;
  }

  lemma InsertGoes(cfg: Config, m: State, t: nat, a: Action)
    requires Inv(cfg, m) && t < |m.threads| && m.threads[t].Ins? && a.Go?
    ensures |m.cells| == cfg.cap && m.threads[t].j < cfg.cap && |Exec(cfg, m, t, a).threads| == |m.threads|
    ensures Exec(cfg, m, t, a).threads[t] == InsertLocal(cfg, m, m.threads[t], a.throws, a.mark)
  {
    InvThread(cfg, m, t);
    hide Inv, Path, InsertLocal;
  }

  lemma InsertMoves(cfg: Config, m: State, t: nat, a: Action)
    requires Inv(cfg, m) && t < |m.threads| && m.threads[t].Ins? && a.Go?
    ensures |Exec(cfg, m, t, a).threads| == |m.threads| && m.threads[t].j < cfg.cap
    ensures var l, l' := m.threads[t], Exec(cfg, m, t, a).threads[t];
      && (l'.Ins? ==>
            && l'.key == l.key && l'.value == l.value && l'.j < cfg.cap
            && (Built(l'.pc) <==> Built(l.pc) || (l.pc.Build? && !a.throws)) && (Built(l'.pc) ==> l'.j == l.j)
            && (l'.pc.ThrownDown? ==> l.pc.Build? && a.throws))
      && (l'.Done? ==>
            && l'.key == l.key && (l'.result.Inserted? || l'.result.Existing? || l'.result.Full? || l'.result.Threw?)
            && (l'.result.Inserted? ==> Built(l.pc) && l'.result.idx == Path(cfg, l.key, l.j))
            && (l'.result.Existing? ==> HoldsAt(m.cells, l'.result.idx, l.key))
            && (l'.result.Threw? ==> l.pc.ThrownDown?) && (Built(l.pc) ==> l'.result.Inserted?))
      && (l'.Ins? || l'.Done?) && (l.pc.Build? ==> l'.Ins?)
  {
    InsertGoes(cfg, m, t, a);
    hide Inv, Path, Exec;
  }

  lemma BuildMoves(cfg: Config, m: State, t: nat, a: Action)
    requires Inv(cfg, m) && t < |m.threads| && m.threads[t].Ins? && m.threads[t].pc.Build? && a.Go? && !a.throws
    ensures m.threads[t].j < cfg.cap
    ensures var l := m.threads[t];
      Absent(m.cells, l.key) && HoldsPair(Exec(cfg, m, t, a).cells, Path(cfg, l.key, l.j), l.key, l.value)
  {
    BuildAdds(cfg, m, t, a.mark, m.threads[t].key);
    InvThread(cfg, m, t);
    hide Inv, Path, Absent;
  }

  lemma InsertSoFar(cfg: Config, s: State, less: seq<(nat, Action)>, schedule: seq<(nat, Action)>, t: nat,
                    start: Action, a: Action)
    requires schedule == less + [(t, a)] && a.Go? && Inv(cfg, Run(cfg, s, less))
    requires t < |Run(cfg, s, less).threads| && Run(cfg, s, less).threads[t].Ins?
    requires SoFar(cfg, s, less, t, start, Run(cfg, s, less).threads[t])
    ensures t < |Run(cfg, s, schedule).threads| && SoFar(cfg, s, schedule, t, start, Run(cfg, s, schedule).threads[t])
  {
    hide Inv, Path, Absent, Exec, HoldsAt, HoldsPair;
    var m, m' := Run(cfg, s, less), Run(cfg, s, schedule);
    LastStates(cfg, s, less, schedule, t, a);
    hide Run;
    InsertMoves(cfg, m, t, a);
    var l, l' := m.threads[t], m'.threads[t];
    var c := Path(cfg, l.key, l.j);
    SawMore(cfg, s, less, schedule, t, c, l.key, l.value);
    if l.pc.Build? && !a.throws {
      BuildMoves(cfg, m, t, a);
      assert AddsAt(cfg, s, schedule, t, c, l.key, l.value, |less|);
    }
    if l'.Done? && l'.result.Existing? {
      assert SawAt(cfg, s, schedule, l'.result.idx, l.key);
    }
    ThrewMore(cfg, s, less, schedule, t);
    if l.pc.Build? && a.throws {
      assert ThrowsAt(cfg, s, schedule, t, |less|);
    }
    if !Built(l.pc) && !(l.pc.Build? && !a.throws) {
      OtherStepsKeepKeys(cfg, m, t, a, l.key);
      NothingMore(cfg, s, less, schedule, t, l.key, t, a);
    }
    hide Added, Took, SawAt, ThrewIn, ChangedNothing;
  }

  lemma SearchMoves(cfg: Config, m: State, t: nat, a: Action)
    requires Inv(cfg, m) && t < |m.threads| && !m.threads[t].Ins? && !m.threads[t].Idle? && !m.threads[t].Done? && a.Go?
    ensures |Exec(cfg, m, t, a).threads| == |m.threads|
    ensures var l, l' := m.threads[t], Exec(cfg, m, t, a).threads[t];
      && l'.key == l.key
      && (l.Find? ==> l'.Find? || (l'.Done? && (l'.result.NotFound? || l'.result.Found?)))
      && (l'.Done? && l'.result.Found? ==> HoldsAt(m.cells, l'.result.idx, l.key))
      && (l.Erase? ==> l'.Erase? || l'.EraseCas? || (l'.Done? && l'.result.NotRemoved?))
      && (l.EraseCas? ==> l'.Done? && (l'.result.NotRemoved? || l'.result.Removed?))
      && (if l'.Done? && l'.result.Removed? then !Absent(m.cells, l.key) && Absent(Exec(cfg, m, t, a).cells, l.key)
          else Absent(m.cells, l.key) <==> Absent(Exec(cfg, m, t, a).cells, l.key))
  {
    if m.threads[t].EraseCas? {
      CasRemoves(cfg, m, t, a, m.threads[t].key);
    } else {
      OtherStepsKeepKeys(cfg, m, t, a, m.threads[t].key);
    }
    InvThread(cfg, m, t);
    hide Inv, Path, Absent;
  }

  lemma SearchSoFar(cfg: Config, s: State, less: seq<(nat, Action)>, schedule: seq<(nat, Action)>, t: nat,
                    start: Action, a: Action)
    requires schedule == less + [(t, a)] && a.Go? && Inv(cfg, Run(cfg, s, less)) && t < |Run(cfg, s, less).threads|
    requires var l := Run(cfg, s, less).threads[t];
      !l.Ins? && !l.Idle? && !l.Done? && SoFar(cfg, s, less, t, start, l)
    ensures t < |Run(cfg, s, schedule).threads| && SoFar(cfg, s, schedule, t, start, Run(cfg, s, schedule).threads[t])
  {
    hide Inv, Path, Absent, Exec, HoldsAt, HoldsPair;
    var m, m' := Run(cfg, s, less), Run(cfg, s, schedule);
    LastStates(cfg, s, less, schedule, t, a);
    hide Run;
    SearchMoves(cfg, m, t, a);
    var l' := m'.threads[t];
    if l'.Done? && l'.result.Found? {
      assert SawAt(cfg, s, schedule, l'.result.idx, l'.key);
    }
    if l'.Done? && l'.result.Removed? {
      assert TakesAt(cfg, s, schedule, t, l'.key, |less|);
    } else {
      NothingMore(cfg, s, less, schedule, t, l'.key, t, a);
    }
    hide Added, Took, SawAt, ChangedNothing;
  }

  lemma SameCells(cfg: Config, m: State, t: nat, a: Action)
    requires t < |m.threads| && m.threads[t].Done?
    ensures Exec(cfg, m, t, a).cells == m.cells
  {
  }

  lemma OwnStep(cfg: Config, s: State, less: seq<(nat, Action)>, schedule: seq<(nat, Action)>, t: nat, start: Action,
                a: Action)
    requires schedule == less + [(t, a)] && a.Go? && Inv(cfg, Run(cfg, s, less)) && t < |Run(cfg, s, less).threads|
    requires SoFar(cfg, s, less, t, start, Run(cfg, s, less).threads[t])
    ensures t < |Run(cfg, s, schedule).threads| && SoFar(cfg, s, schedule, t, start, Run(cfg, s, schedule).threads[t])
  {
    var m := Run(cfg, s, less);
    if m.threads[t].Ins? {
      InsertSoFar(cfg, s, less, schedule, t, start, a);
    } else if m.threads[t].Done? {
      LastStates(cfg, s, less, schedule, t, a);
      CallGoesOn(cfg, m, t, a);
      SameCells(cfg, m, t, a);
      SoFarMore(cfg, s, less, schedule, t, start, m.threads[t], t, a);
    } else {
      SearchSoFar(cfg, s, less, schedule, t, start, a);
    }
  }

  lemma CallBefore(schedule: seq<(nat, Action)>, t: nat, start: Action)
    requires IsCall(schedule, t, start) && |schedule| > 1
    ensures IsCall(schedule[..|schedule| - 1], t, start)
    ensures schedule[|schedule| - 1].0 == t ==> schedule[|schedule| - 1].1.Go?
  {
    var n := |schedule| - 1;
    assert schedule[..n][1..] == schedule[1..][..n - 1] && schedule[n] == schedule[1..][n - 1];
  }

  lemma {:induction false} CallSoFar(cfg: Config, s: State, t: nat, start: Action, schedule: seq<(nat, Action)>)
    requires Inv(cfg, s) && t < |s.threads| && (s.threads[t].Idle? || s.threads[t].Done?) && IsCall(schedule, t, start)
    ensures var s' := Run(cfg, s, schedule);
      Inv(cfg, s') && |s'.threads| == |s.threads| && SoFar(cfg, s, schedule, t, start, s'.threads[t])
    decreases |schedule|
  {
    hide Inv, Exec, SoFar;
    var n := |schedule| - 1;
    var less, last := schedule[..n], schedule[n];
    assert schedule == less + [last];
    RunInv(cfg, s, schedule);
    LastStates(cfg, s, less, schedule, last.0, last.1);
    KeepsThreadCount(cfg, Run(cfg, s, less), last.0, last.1);
    if n == 0 {
      StartsCall(cfg, s, t, start);
      StartSoFar(cfg, s, t, start, schedule);
    } else {
      CallBefore(schedule, t, start);
      hide IsCall;
      CallSoFar(cfg, s, t, start, less);
      if last.0 == t {
        OwnStep(cfg, s, less, schedule, t, start, last.1);
      } else {
        OtherThreads(cfg, Run(cfg, s, less), t, last.0, last.1);
        SoFarMore(cfg, s, less, schedule, t, start, Run(cfg, s, less).threads[t], last.0, last.1);
      }
    }
  }

  lemma StartSoFar(cfg: Config, s: State, t: nat, start: Action, schedule: seq<(nat, Action)>)
    requires !start.Go? && schedule == [(t, start)] && Exec(cfg, s, t, start).cells == s.cells
    ensures match start
            case StartInsert(k, v) => SoFar(cfg, s, schedule, t, start, Ins(LoadCell, k, v, 0))
            case StartFind(k) => SoFar(cfg, s, schedule, t, start, Find(k, 0, false))
            case StartErase(k) => SoFar(cfg, s, schedule, t, start, Erase(k, 0))
            case _ => true
  {
    assert schedule[..0] == [] && schedule[..1] == schedule;
    assert Run(cfg, s, schedule[..0]) == s && Run(cfg, s, schedule).cells == s.cells;
    assert ChangedNothing(cfg, s, schedule, t, KeyOf(start));
  }

  // ----- The negative answers -----

  /** If the key was never absent, it was there all through the call. */
  lemma PresentAfterStart(cfg: Config, s: State, t: nat, start: Action, schedule: seq<(nat, Action)>, k: Key)
    requires IsCall(schedule, t, start) && !SawAbsent(cfg, s, schedule, k)
    ensures Run(cfg, s, schedule) == Run(cfg, Exec(cfg, s, t, start), schedule[1..])
    ensures PresentThroughout(cfg, Exec(cfg, s, t, start), schedule[1..], k)
  {
    hide Exec, Absent;
    var one, more := schedule[..1], schedule[1..];
    assert one[..0] == [] && Run(cfg, s, one[..0]) == s && Run(cfg, s, one) == Exec(cfg, s, t, start);
    assert schedule == one + more;
    RunAppend(cfg, s, one, more);
    forall i | 0 <= i < |more|
      ensures !Absent(Run(cfg, Exec(cfg, s, t, start), more[..i]).cells, k)
    {
      RunAppend(cfg, s, one, more[..i]);
      assert schedule[..i + 1] == one + more[..i];
    }
  }

  lemma MissSawAbsent(cfg: Config, s: State, t: nat, start: Action, schedule: seq<(nat, Action)>)
    requires Inv(cfg, s) && t < |s.threads| && (s.threads[t].Idle? || s.threads[t].Done?) && IsCall(schedule, t, start)
    requires var s' := Run(cfg, s, schedule);
      t < |s'.threads| && s'.threads[t].Done? &&
      ((start.StartFind? && s'.threads[t].result.NotFound?) || (start.StartErase? && s'.threads[t].result.NotRemoved?))
    ensures SawAbsent(cfg, s, schedule, KeyOf(start))
  {
    hide Inv, Exec, Absent, Run, SawAbsent;
    if !SawAbsent(cfg, s, schedule, KeyOf(start)) {
      PresentAfterStart(cfg, s, t, start, schedule, KeyOf(start));
      StartsCall(cfg, s, t, start);
      ExecInv(cfg, s, t, start);
      if start.StartFind? {
        FindNeverMisses(cfg, Exec(cfg, s, t, start), t, start.k, schedule[1..]);
      } else {
        EraseNeverMisses(cfg, Exec(cfg, s, t, start), t, start.k, schedule[1..]);
      }
    }
  }

  // ----- All answers -----

  /** Every answer was right at an instant of its call: what an insert reports as its own
      it put into that cell with the value given, when the key was in none; what it reports
      as existing and what a find reports was in that cell; what an erase reports as removed
      it took out; a key that was not found or not removed was in no cell; an insert that
      threw did so in its constructor; and only the first and the third made a change to the key's place. */
  lemma {:induction false} AnswerIsJustified(cfg: Config, s: State, t: nat, start: Action, schedule: seq<(nat, Action)>)
    requires Inv(cfg, s) && t < |s.threads| && (s.threads[t].Idle? || s.threads[t].Done?) && IsCall(schedule, t, start)
    ensures var s' := Run(cfg, s, schedule);
      && |s'.threads| == |s.threads|
      && (s'.threads[t].Done? ==>
            s'.threads[t].key == KeyOf(start) && Justified(cfg, s, schedule, t, start, s'.threads[t].result))
  {
    hide Inv, Exec, Absent, Added, Took, SawAt, SawAbsent, ThrewIn, ChangedNothing, Run;
    CallSoFar(cfg, s, t, start, schedule);
    var s' := Run(cfg, s, schedule);
    if s'.threads[t].Done? {
      var r := s'.threads[t].result;
      if r.NotFound? || r.NotRemoved? {
        MissSawAbsent(cfg, s, t, start, schedule);
      } else if r.Full? {
        FullMeansRefused(cfg, s', t, KeyOf(start));
      }
    }
  }

  // ----- What holds an insert up -----

  /** Thread `t` is about to find that it must wait or try again: inserts are pending in a
      full array, or its cell is locked, or it was emptied again. */
  predicate Busy(cfg: Config, s: State, t: nat) {
    && t < |s.threads| && s.threads[t].Ins? && s.threads[t].j < cfg.cap && |s.cells| == cfg.cap
    && var x := s.cells[Path(cfg, s.threads[t].key, s.threads[t].j)];
       match s.threads[t].pc
       case SpinPending => s.pending != 0
       case Wait => x.Locked?
       case Compare => x.Empty? || x.Locked?
       case _ => false
  }

  /** How often that happened to `t` in a run. */
  function HeldUp(cfg: Config, s: State, schedule: seq<(nat, Action)>, t: nat): nat {
    if |schedule| == 0 then 0
    else
      var less, last := schedule[..|schedule| - 1], schedule[|schedule| - 1];
      HeldUp(cfg, s, less, t) + (if last.0 == t && last.1.Go? && Busy(cfg, Run(cfg, s, less), t) then 1 else 0)
  }

  lemma {:induction false} HeldUpAppend(cfg: Config, s: State, x: seq<(nat, Action)>, y: seq<(nat, Action)>, t: nat)
    ensures HeldUp(cfg, s, x + y, t) == HeldUp(cfg, s, x, t) + HeldUp(cfg, Run(cfg, s, x), y, t)
    decreases |y|
  {
    hide Exec, Busy;
    if |y| == 0 {
      assert x + y == x;
    } else {
      HeldUpAppend(cfg, s, x, y[..|y| - 1], t);
      RunAppend(cfg, s, x, y[..|y| - 1]);
      assert (x + y)[..|x + y| - 1] == x + y[..|y| - 1];
    }
  }

  lemma {:induction false} OthersDoNotCount(cfg: Config, s: State, y: seq<(nat, Action)>, t: nat)
    requires forall i :: 0 <= i < |y| ==> y[i].0 != t
    ensures HeldUp(cfg, s, y, t) == 0
    decreases |y|
  {
    if |y| > 0 {
      OthersDoNotCount(cfg, s, y[..|y| - 1], t);
    }
  }

  // ----- Where values come from -----

  predicate Inserting(s: State, u: nat, k: Key, v: Value) {
    u < |s.threads| && s.threads[u].Ins? && s.threads[u].key == k && s.threads[u].value == v
  }

  /** Thread `u` began insert(k, v) with step `m` and is in that call from there to state `p`. */
  ghost predicate Began(cfg: Config, s: State, schedule: seq<(nat, Action)>, u: nat, k: Key, v: Value, m: nat, p: nat) {
    && m < p <= |schedule| && schedule[m] == (u, StartInsert(k, v))
    && forall i :: m < i <= p ==> Inserting(Run(cfg, s, schedule[..i]), u, k, v)
  }

  /** Step `p`, in the call that `u` began with step `m`, put `k` with value `v` into cell `c`
      when `k` was in none, and the cell has held them ever since. */
  ghost predicate GivenBy(cfg: Config, s: State, schedule: seq<(nat, Action)>, c: nat, k: Key, v: Value,
                          u: nat, m: nat, p: nat) {
    && Began(cfg, s, schedule, u, k, v, m, p) && p < |schedule| && schedule[p].0 == u
    && Absent(Run(cfg, s, schedule[..p]).cells, k)
    && forall i :: p < i <= |schedule| ==> HoldsPair(Run(cfg, s, schedule[..i]).cells, c, k, v)
  }

  ghost predicate WasStarted(cfg: Config, s: State, schedule: seq<(nat, Action)>, u: nat, k: Key, v: Value) {
    exists m: nat :: Began(cfg, s, schedule, u, k, v, m, |schedule|)
  }

  ghost predicate WasGiven(cfg: Config, s: State, schedule: seq<(nat, Action)>, c: nat, k: Key, v: Value) {
    exists u: nat, m: nat, p: nat :: GivenBy(cfg, s, schedule, c, k, v, u, m, p)
  }

  lemma StartedMore(cfg: Config, s: State, less: seq<(nat, Action)>, schedule: seq<(nat, Action)>, u: nat, k: Key,
                    v: Value)
    requires less < schedule && |schedule| == |less| + 1
    requires WasStarted(cfg, s, less, u, k, v) && Inserting(Run(cfg, s, schedule), u, k, v)
    ensures WasStarted(cfg, s, schedule, u, k, v)
  {
    hide Run, Inserting;
    var m: nat :| Began(cfg, s, less, u, k, v, m, |less|);
    forall i | m < i <= |schedule|
      ensures Inserting(Run(cfg, s, schedule[..i]), u, k, v)
    {
      if i <= |less| {
        assert less[..i] == schedule[..i];
      } else {
        assert schedule[..i] == schedule;
      }
    }
    assert Began(cfg, s, schedule, u, k, v, m, |schedule|);
  }

  lemma StartsNow(cfg: Config, s: State, less: seq<(nat, Action)>, schedule: seq<(nat, Action)>, u: nat, k: Key,
                  v: Value)
    requires schedule == less + [(u, StartInsert(k, v))] && Inserting(Run(cfg, s, schedule), u, k, v)
    ensures WasStarted(cfg, s, schedule, u, k, v)
  {
    hide Run, Inserting;
    assert schedule[..|schedule|] == schedule;
    assert Began(cfg, s, schedule, u, k, v, |less|, |schedule|);
  }

  lemma IdleStarts(cfg: Config, m: State, u: nat, a: Action)
    requires Inv(cfg, m) && u < |m.threads| && (m.threads[u].Idle? || m.threads[u].Done?)
    ensures |Exec(cfg, m, u, a).threads| == |m.threads|
    ensures var l := Exec(cfg, m, u, a).threads[u]; l.Ins? ==> a == StartInsert(l.key, l.value)
  {
  }

  /** A thread inside an insert was given its key and value when the call began. */
  lemma {:induction false} InsertWasStarted(cfg: Config, n: nat, schedule: seq<(nat, Action)>, u: nat)
    requires cfg.cap > 0
    ensures var s := Run(cfg, Initial(cfg, n), schedule);
      u < |s.threads| && s.threads[u].Ins? ==>
        WasStarted(cfg, Initial(cfg, n), schedule, u, s.threads[u].key, s.threads[u].value)
    decreases |schedule|
  {
    var s0 := Initial(cfg, n);
    if |schedule| > 0 {
      hide Inv, Exec, WasStarted;
      var less, last := schedule[..|schedule| - 1], schedule[|schedule| - 1];
      assert schedule == less + [last];
      InsertWasStarted(cfg, n, less, u);
      InitialInv(cfg, n);
      RunInv(cfg, s0, less);
      var m, m' := Run(cfg, s0, less), Run(cfg, s0, schedule);
      LastStates(cfg, s0, less, schedule, last.0, last.1);
      KeepsThreadCount(cfg, m, last.0, last.1);
      if u < |m'.threads| && m'.threads[u].Ins? {
        var l' := m'.threads[u];
        if last.0 != u {
          OtherThreads(cfg, m, u, last.0, last.1);
          StartedMore(cfg, s0, less, schedule, u, l'.key, l'.value);
        } else if m.threads[u].Idle? || m.threads[u].Done? {
          IdleStarts(cfg, m, u, last.1);
          StartsNow(cfg, s0, less, schedule, u, l'.key, l'.value);
        } else {
          SameInsert(cfg, m, u, last.1);
          StartedMore(cfg, s0, less, schedule, u, l'.key, l'.value);
        }
      }
    }
  }

  /** An insert keeps its key and value, and no other call turns into one. */
  lemma SameInsert(cfg: Config, m: State, u: nat, a: Action)
    requires Inv(cfg, m) && u < |m.threads| && !m.threads[u].Idle? && !m.threads[u].Done?
    ensures |Exec(cfg, m, u, a).threads| == |m.threads|
    ensures var l, l' := m.threads[u], Exec(cfg, m, u, a).threads[u];
      l'.Ins? ==> l.Ins? && l'.key == l.key && l'.value == l.value
  {
    if a.Go? {
      CallGoesOn(cfg, m, u, a);
      if m.threads[u].Ins? {
        InsertMoves(cfg, m, u, a);
      }
    }
    hide Inv, InsertStep, FindStep, EraseStep, CasStep;
  }

  lemma GivenMore(cfg: Config, s: State, less: seq<(nat, Action)>, schedule: seq<(nat, Action)>, c: nat, k: Key,
                  v: Value)
    requires less < schedule && |schedule| == |less| + 1
    requires WasGiven(cfg, s, less, c, k, v) && HoldsPair(Run(cfg, s, schedule).cells, c, k, v)
    ensures WasGiven(cfg, s, schedule, c, k, v)
  {
    hide Run, Inserting, Absent, HoldsPair;
    var u: nat, m: nat, p: nat :| GivenBy(cfg, s, less, c, k, v, u, m, p);
    assert forall i :: 0 <= i <= |less| ==> less[..i] == schedule[..i];
    forall i | m < i <= p
      ensures Inserting(Run(cfg, s, schedule[..i]), u, k, v)
    {
      assert less[..i] == schedule[..i];
    }
    forall i | p < i <= |schedule|
      ensures HoldsPair(Run(cfg, s, schedule[..i]).cells, c, k, v)
    {
      if i <= |less| {
        assert less[..i] == schedule[..i];
      } else {
        assert schedule[..i] == schedule;
      }
    }
    assert less[..p] == schedule[..p];
    assert GivenBy(cfg, s, schedule, c, k, v, u, m, p);
  }

  lemma GivenNow(cfg: Config, s: State, less: seq<(nat, Action)>, schedule: seq<(nat, Action)>, c: nat, k: Key,
                 v: Value, u: nat, a: Action)
    requires schedule == less + [(u, a)] && WasStarted(cfg, s, less, u, k, v)
    requires Absent(Run(cfg, s, less).cells, k) && HoldsPair(Run(cfg, s, schedule).cells, c, k, v)
    ensures WasGiven(cfg, s, schedule, c, k, v)
  {
    hide Run, Inserting, Absent, HoldsPair;
    var m: nat :| Began(cfg, s, less, u, k, v, m, |less|);
    assert schedule[..|less|] == less && schedule[..|schedule|] == schedule;
    forall i | m < i <= |less|
      ensures Inserting(Run(cfg, s, schedule[..i]), u, k, v)
    {
      assert less[..i] == schedule[..i];
    }
    assert GivenBy(cfg, s, schedule, c, k, v, u, m, |less|);
  }

  /** A cell gets a key only from the thread that builds in it. */
  lemma OnlyBuildFills(cfg: Config, m: State, t: nat, a: Action, c: nat)
    requires Inv(cfg, m) && c < cfg.cap && !m.cells[c].Real?
    ensures |Exec(cfg, m, t, a).cells| == cfg.cap
    ensures Exec(cfg, m, t, a).cells[c].Real? ==>
      && t < |m.threads| && a.Go? && !a.throws && m.threads[t].Ins? && m.threads[t].pc.Build?
      && m.threads[t].j < cfg.cap && Path(cfg, m.threads[t].key, m.threads[t].j) == c
  {
    KeepsCellCount(cfg, m, t, a);
    if t < |m.threads| {
      InvThread(cfg, m, t);
    }
    hide Inv, Path, Prefix, Chain, Refused, InsertLocal, FindStep, EraseStep;
  }

  /** In every run, whatever a cell holds was given to it by a call: some thread began an
      insert of just that key and value, put them into the cell when the key was in none,
      and the cell has held them since. So an answer that names a cell names the value of
      the insert that added the key. */
  lemma {:induction false} ValueWasGiven(cfg: Config, n: nat, schedule: seq<(nat, Action)>, c: nat)
    requires cfg.cap > 0 && c < cfg.cap
    ensures var s := Run(cfg, Initial(cfg, n), schedule);
      && |s.cells| == cfg.cap
      && (s.cells[c].Real? ==> WasGiven(cfg, Initial(cfg, n), schedule, c, s.cells[c].key, s.cells[c].value))
    decreases |schedule|
  {
    var s0 := Initial(cfg, n);
    if |schedule| > 0 {
      hide Inv, Exec, WasGiven, WasStarted, Absent;
      var less, last := schedule[..|schedule| - 1], schedule[|schedule| - 1];
      assert schedule == less + [last];
      ValueWasGiven(cfg, n, less, c);
      InitialInv(cfg, n);
      RunInv(cfg, s0, less);
      var m, m' := Run(cfg, s0, less), Run(cfg, s0, schedule);
      LastStates(cfg, s0, less, schedule, last.0, last.1);
      KeepsCellCount(cfg, m, last.0, last.1);
      if m'.cells[c].Real? {
        var k, v := m'.cells[c].key, m'.cells[c].value;
        if m.cells[c].Real? {
          CellsLater(cfg, m, last.0, last.1, c);
          GivenMore(cfg, s0, less, schedule, c, k, v);
        } else {
          OnlyBuildFills(cfg, m, last.0, last.1, c);
          BuildMoves(cfg, m, last.0, last.1);
          InsertWasStarted(cfg, n, less, last.0);
          GivenNow(cfg, s0, less, schedule, c, k, v, last.0, last.1);
        }
      }
    }
  }

  /** At an instant of `call`, which follows `before`, cell `c` held `k` with a value that the
      insert that added it was given. */
  ghost predicate NamesGiven(cfg: Config, n: nat, before: seq<(nat, Action)>, call: seq<(nat, Action)>, c: nat, k: Key)
  {
    exists i: nat, v :: i <= |call| && WasGiven(cfg, Initial(cfg, n), before + call[..i], c, k, v)
  }

  /** A find's hit and an insert's refusal lead to the value of the insert that added the key. */
  lemma {:induction false} AnswerNamesGiven(cfg: Config, n: nat, before: seq<(nat, Action)>, t: nat, start: Action,
                         call: seq<(nat, Action)>)
    requires cfg.cap > 0 && IsCall(call, t, start)
    requires var s := Run(cfg, Initial(cfg, n), before);
      t < |s.threads| && (s.threads[t].Idle? || s.threads[t].Done?)
    ensures var s' := Run(cfg, Initial(cfg, n), before + call);
      && t < |s'.threads|
      && (s'.threads[t].Done? && (s'.threads[t].result.Found? || s'.threads[t].result.Existing?) ==>
            NamesGiven(cfg, n, before, call, s'.threads[t].result.idx, start.k))
  {
    hide Inv, Exec, Absent, WasGiven, ChangedNothing;
    var s0 := Initial(cfg, n);
    var s, s' := Run(cfg, s0, before), Run(cfg, s0, before + call);
    InitialInv(cfg, n);
    RunInv(cfg, s0, before);
    RunAppend(cfg, s0, before, call);
    AnswerIsJustified(cfg, s, t, start, call);
    hide Run;
    if s'.threads[t].Done? && (s'.threads[t].result.Found? || s'.threads[t].result.Existing?) {
      var c := s'.threads[t].result.idx;
      var i :| 0 <= i <= |call| && HoldsAt(Run(cfg, s, call[..i]).cells, c, start.k);
      RunAppend(cfg, s0, before, call[..i]);
      RunInv(cfg, s0, before + call[..i]);
      Sizes(cfg, Run(cfg, s0, before + call[..i]));
      ValueWasGiven(cfg, n, before + call[..i], c);
    }
  }

  lemma Sizes(cfg: Config, s: State)
    requires Inv(cfg, s)
    ensures |s.cells| == cfg.cap
  {
  }

  // ----- When a key is refused -----

  predicate Marking(s: State, t: nat) {
    t < |s.threads| && s.threads[t].Ins? && s.threads[t].pc.MarkFull?
  }

  /** The array is closed, or about to be, only once it has had so many entries. */
  ghost predicate ClosedLate(cfg: Config, s: State) {
    (s.isFull > 0 || exists t: nat :: Marking(s, t)) ==> s.entries >= cfg.maxEntries
  }

  /** Some cell gets a key. */
  predicate Fills(cells: seq<Cell>, cells': seq<Cell>) {
    exists c :: 0 <= c < |cells| && c < |cells'| && !cells[c].Real? && cells'[c].Real?
  }

  /** How often a key was put into the array in a run. */
  function Additions(cfg: Config, s: State, schedule: seq<(nat, Action)>): nat {
    if |schedule| == 0 then 0
    else
      var less := schedule[..|schedule| - 1];
      Additions(cfg, s, less) + (if Fills(Run(cfg, s, less).cells, Run(cfg, s, schedule).cells) then 1 else 0)
  }

  predicate Puts(s: State, t: nat, a: Action) {
    t < |s.threads| && a.Go? && !a.throws && s.threads[t].Ins? && s.threads[t].pc.Build?
  }

  lemma PutsFills(cfg: Config, m: State, t: nat, a: Action)
    requires Inv(cfg, m)
    ensures Fills(m.cells, Exec(cfg, m, t, a).cells) <==> Puts(m, t, a)
  {
    var m' := Exec(cfg, m, t, a);
    KeepsCellCount(cfg, m, t, a);
    Sizes(cfg, m);
    if Puts(m, t, a) {
      BuildMoves(cfg, m, t, a);
      BuildsInLocked(cfg, m, t);
      hide Inv, Exec, Path, Absent;
      var c := Path(cfg, m.threads[t].key, m.threads[t].j);
      assert !m.cells[c].Real? && m'.cells[c].Real?;
    } else if Fills(m.cells, m'.cells) {
      var c :| 0 <= c < |m.cells| && c < |m'.cells| && !m.cells[c].Real? && m'.cells[c].Real?;
      OnlyBuildFills(cfg, m, t, a, c);
    }
  }

  lemma BuildsInLocked(cfg: Config, m: State, t: nat)
    requires Inv(cfg, m) && t < |m.threads| && m.threads[t].Ins? && m.threads[t].pc.Build?
    ensures var c := Path(cfg, m.threads[t].key, m.threads[t].j); c < |m.cells| && m.cells[c].Locked?
  {
    InvThread(cfg, m, t);
    hide Inv, Path, Prefix, Chain, Refused;
  }

  /** The thread has put its key in place and not counted it yet. */
  predicate Uncounted(l: Local) { l.Ins? && (l.pc.DoneDown? || l.pc.CountEntry?) }

  lemma ClosedStep(cfg: Config, s: State, t: nat, a: Action)
    requires Inv(cfg, s) && ClosedLate(cfg, s)
    ensures ClosedLate(cfg, Exec(cfg, s, t, a)) && s.entries <= Exec(cfg, s, t, a).entries
  {
    var s' := Exec(cfg, s, t, a);
    KeepsThreadCount(cfg, s, t, a);
    if t < |s.threads| {
      InvThread(cfg, s, t);
      forall u: nat | u < |s.threads| && u != t
        ensures Marking(s', u) <==> Marking(s, u)
      {
        OtherThreads(cfg, s, u, t, a);
      }
      assert s.threads[t].Ins? && s.threads[t].pc.MarkFull? ==> Marking(s, t);
    }
    hide Inv, Path, Prefix, Chain, Refused;
  }

  /** Every key in place is counted once, sooner or later: by the thread that put it there. */
  lemma CountMoves(cfg: Config, s: State, t: nat, a: Action)
    requires Inv(cfg, s) && t < |s.threads|
    ensures var s' := Exec(cfg, s, t, a);
      && |s'.threads| == |s.threads|
      && s'.entries + (if Uncounted(s'.threads[t]) then 1 else 0) ==
           s.entries + (if Uncounted(s.threads[t]) then 1 else 0) + (if Puts(s, t, a) then 1 else 0)
  {
    if a.Go? && s.threads[t].Ins? {
      InsertGoes(cfg, s, t, a);
      EntryMoves(cfg, s, t, a);
      hide Inv, Path, Exec;
    } else {
      KeepsThreadCount(cfg, s, t, a);
      if a.Go? {
        CallGoesOn(cfg, s, t, a);
      }
      hide Inv, Path, InsertStep;
    }
  }

  lemma EntryMoves(cfg: Config, s: State, t: nat, a: Action)
    requires Inv(cfg, s) && t < |s.threads| && s.threads[t].Ins? && a.Go?
    ensures Exec(cfg, s, t, a).entries == s.entries + (if s.threads[t].pc.CountEntry? then 1 else 0)
  {
    InvThread(cfg, s, t);
    hide Inv, Path, InsertLocal;
  }

  lemma CountStep(cfg: Config, s: State, t: nat, a: Action)
    requires Inv(cfg, s)
    ensures var s' := Exec(cfg, s, t, a);
      s'.entries + Count(s'.threads, Uncounted) ==
        s.entries + Count(s.threads, Uncounted) + (if Puts(s, t, a) then 1 else 0)
  {
    var s' := Exec(cfg, s, t, a);
    KeepsThreadCount(cfg, s, t, a);
    if t < |s.threads| {
      CountMoves(cfg, s, t, a);
      forall u | 0 <= u < |s.threads| && u != t
        ensures s'.threads[u] == s.threads[u]
      {
        OtherThreads(cfg, s, u, t, a);
      }
      hide Inv, Exec, Count;
      assert s'.threads == s.threads[t := s'.threads[t]];
      CountUpdate(s.threads, t, s'.threads[t], Uncounted);
    }
  }

  lemma {:induction false} EntriesAreAdditions(cfg: Config, n: nat, schedule: seq<(nat, Action)>)
    requires cfg.cap > 0
    ensures var s := Run(cfg, Initial(cfg, n), schedule);
      && Inv(cfg, s) && ClosedLate(cfg, s)
      && s.entries + Count(s.threads, Uncounted) == Additions(cfg, Initial(cfg, n), schedule)
    decreases |schedule|
  {
    var s0 := Initial(cfg, n);
    InitialInv(cfg, n);
    RunInv(cfg, s0, schedule);
    if |schedule| > 0 {
      hide Inv, Exec, ClosedLate, Count, Puts, Fills;
      var less, last := schedule[..|schedule| - 1], schedule[|schedule| - 1];
      EntriesAreAdditions(cfg, n, less);
      ClosedStep(cfg, Run(cfg, s0, less), last.0, last.1);
      CountStep(cfg, Run(cfg, s0, less), last.0, last.1);
      PutsFills(cfg, Run(cfg, s0, less), last.0, last.1);
    } else {
      CountNone(s0.threads, Uncounted);
    }
  }

  /** In every run a key is refused only because every cell on its way holds another key or
      an erased one, or because at least as many keys were added as the array is meant for. */
  lemma {:induction false} RefusedOnlyWhenFull(cfg: Config, n: nat, schedule: seq<(nat, Action)>, k: Key)
    requires cfg.cap > 0
    ensures var s := Run(cfg, Initial(cfg, n), schedule);
      && |s.cells| == cfg.cap
      && (k in s.fullKeys ==>
            Prefix(cfg, s.cells, k, cfg.cap) || Additions(cfg, Initial(cfg, n), schedule) >= cfg.maxEntries)
  {
    EntriesAreAdditions(cfg, n, schedule);
    var s := Run(cfg, Initial(cfg, n), schedule);
    hide Run, Additions;
    if k in s.fullKeys {
      assert Blocked(cfg, s.cells, s.frozen, k);
    }
  }
}
