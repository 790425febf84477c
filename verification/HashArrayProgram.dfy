/** insertInternal, findInternal and erase of libs/folly/folly/AtomicHashArray-inl.h:46-297
    as written: probe loops over local variables that read and write the cells and the
    counters in place, with the other threads running between any two accesses. Each is
    one call in a run of module HashArray from the state it was called in. `spins` bounds
    the turns of each loop that waits or tries again; None is a call that has not come to an
    end by then. */
module HashArrayProgram {
  import opened Common
  import opened HashArray
  import opened HashArrayCalls

  ghost predicate NotOf(schedule: seq<(nat, Action)>, t: nat) {
    forall i :: 0 <= i < |schedule| ==> schedule[i].0 != t
  }

  /** `s'` is where other threads than `t` can bring `s`. */
  ghost predicate OthersRan(cfg: Config, s: State, s': State, t: nat) {
    exists schedule :: NotOf(schedule, t) && s' == Run(cfg, s, schedule)
  }

  lemma {:induction false} OthersKeep(cfg: Config, s: State, schedule: seq<(nat, Action)>, t: nat)
    requires t < |s.threads| && NotOf(schedule, t)
    ensures var s' := Run(cfg, s, schedule);
      |s'.cells| == |s.cells| && |s'.threads| == |s.threads| && s'.threads[t] == s.threads[t]
  {
    if |schedule| > 0 {
      hide Exec;
      var less, last := schedule[..|schedule| - 1], schedule[|schedule| - 1];
      OthersKeep(cfg, s, less, t);
      OtherThreads(cfg, Run(cfg, s, less), t, last.0, last.1);
      KeepsCellCount(cfg, Run(cfg, s, less), last.0, last.1);
    }
  }

  /** How a turn of the probe loop ends: the call is over, the cell is tried again, or
      the next one is probed. */
  datatype Turn = Ended(result: Result) | Again | Onward

  class AtomicHashArray {
    const cfg: Config
    var cells: array<Cell>
    var numPendingEntries: nat
    var numEntries: nat
    var isFull: nat
    ghost var st: State
    /** Every step since the array was made, and what that was when the call at hand had
        taken its first. */
    ghost var log: seq<(nat, Action)>
    ghost var begun: seq<(nat, Action)>
    ghost const threadCount: nat

    ghost predicate Traced()
      reads this
    {
      Inv(cfg, st) && st == Run(cfg, Initial(cfg, threadCount), log)
    }

    ghost predicate Valid()
      reads this, cells
    {
      && Traced() && cells[..] == st.cells && cells.Length == cfg.cap
      && numPendingEntries == st.pending && numEntries == st.entries && isFull == st.isFull
    }

    /** The theorems about all runs apply to the array as it is. */
    lemma IsReachable()
      requires Valid()
      ensures Reachable(cfg, st)
    {
    }

    /** Thread `t` began its call with the last step of `begun` and has only gone on
        since. */
    ghost predicate Going(t: nat)
      reads this
    {
      && t < |st.threads| && |begun| > 0 && begun <= log && begun[|begun| - 1].0 == t
      && forall i :: |begun| <= i < |log| && log[i].0 == t ==> log[i].1.Go?
    }

    /** Thread `t` is at `l` of its call. */
    ghost predicate In(t: nat, l: Local)
      reads this
    {
      t < |st.threads| && Going(t) && st.threads[t] == l
    }

    /** How often `t` has been held up. */
    ghost function Held(t: nat): nat
      reads this
    {
      HeldUp(cfg, Initial(cfg, threadCount), log, t)
    }

    constructor (cfg: Config, threadCount: nat)
      requires cfg.cap > 0
      ensures Valid() && this.cfg == cfg && st == Initial(cfg, threadCount) && log == []
    {
      this.cfg := cfg;
      this.threadCount := threadCount;
      cells := new Cell[cfg.cap](_ => Empty);
      numPendingEntries, numEntries, isFull := 0, 0, 0;
      log, begun := [], [];
      st := Initial(cfg, threadCount);
      new;
      InitialInv(cfg, threadCount);
    }

    /** The other threads run for a while. The last clause follows (`OthersKeep`,
        `OthersDoNotCount`). */
    method Others(t: nat)
      requires Valid() && t < |st.threads|
      modifies this`numPendingEntries, this`numEntries, this`isFull, this`st, this`log, cells
      ensures Valid() && OthersRan(cfg, old(st), st, t)
      ensures old(log) <= log && NotOf(log[|old(log)|..], t)
      ensures |st.threads| == |old(st).threads| && st.threads[t] == old(st).threads[t] && Held(t) == old(Held(t))
    {
      assert NotOf([], t) && st == Run(cfg, st, []);
      OthersKeep(cfg, st, [], t);
    }

    ghost method Tick(t: nat, a: Action)
      requires Traced() && t < |st.threads|
      modifies this`st, this`log
      ensures Traced() && st == Exec(cfg, old(st), t, a) && log == old(log) + [(t, a)]
      ensures |st.cells| == cfg.cap && (old(st).threads[t].Ins? ==> old(st).threads[t].j < cfg.cap)
      ensures Held(t) == old(Held(t)) + (if a.Go? && Busy(cfg, old(st), t) then 1 else 0)
    {
      ExecInv(cfg, st, t, a);
      InvThread(cfg, st, t);
      KeepsThreadCount(cfg, st, t, a);
      InvThread(cfg, Exec(cfg, st, t, a), t);
      hide Inv, Exec, Busy;
      st := Exec(cfg, st, t, a);
      log := log + [(t, a)];
      assert log[..|log| - 1] == old(log);
    }

    /** The first step of a call. */
    ghost method Begin(t: nat, start: Action)
      requires Traced() && t < |st.threads| && (st.threads[t].Idle? || st.threads[t].Done?) && !start.Go?
      modifies this`st, this`log, this`begun
      ensures Traced() && Going(t) && st == Exec(cfg, old(st), t, start) && begun == old(log) + [(t, start)]
      ensures Held(t) == old(Held(t))
    {
      hide Inv, Run, Exec, HeldUp;
      begun := log + [(t, start)];
      StartsCall(cfg, st, t, start);
      Tick(t, start);
    }

    /** What the steps since `before` amount to, when `t` began a call there. */
    lemma CallsRan(s: State, before: seq<(nat, Action)>, t: nat, start: Action)
      requires Valid() && Going(t) && begun == before + [(t, start)] && !start.Go?
      requires s == Run(cfg, Initial(cfg, threadCount), before) && Inv(cfg, s)
      requires t < |s.threads| && (s.threads[t].Idle? || s.threads[t].Done?)
      ensures |st.threads| == |s.threads| && CallRan(cfg, s, st, t, start)
      ensures st.threads[t].Done? ==> CallGave(cfg, s, st, t, start, st.threads[t].result)
      ensures before <= log && st == Run(cfg, s, log[|before|..])
      ensures Held(t) == HeldUp(cfg, Initial(cfg, threadCount), before, t) + HeldUp(cfg, s, log[|before|..], t)
    {
      hide Inv, Run, Justified, HeldUp;
      var schedule := log[|before|..];
      assert log == before + schedule;
      HeldUpAppend(cfg, Initial(cfg, threadCount), before, schedule, t);
      RunAppend(cfg, Initial(cfg, threadCount), before, schedule);
      assert IsCall(schedule, t, start);
      AnswerIsJustified(cfg, s, t, start, schedule);
    }

    // ----- The accesses of an insert, each after the others have run -----

    method LoadKey(t: nat, k: Key, v: Value, j: nat, idx: nat) returns (empty: bool)
      requires Valid() && In(t, Ins(LoadCell, k, v, j)) && j < cfg.cap && idx == Path(cfg, k, j)
      modifies this`numPendingEntries, this`numEntries, this`isFull, this`st, this`log, cells
      ensures Valid() && In(t, Ins(if empty then CountUp else Wait, k, v, j))
      ensures Held(t) >= old(Held(t))
    {
      hide Inv, Path, Run, HeldUp;
      Others(t);
      empty := cells[idx].Empty?;
      Tick(t, Go(false, false));
    }

    method RaisePending(t: nat, k: Key, v: Value, j: nat)
      requires Valid() && In(t, Ins(CountUp, k, v, j))
      modifies this`numPendingEntries, this`numEntries, this`isFull, this`st, this`log, cells
      ensures Valid() && In(t, Ins(LoadFull, k, v, j))
      ensures Held(t) >= old(Held(t))
    {
      hide Inv, Path, Run, HeldUp;
      Others(t);
      numPendingEntries := numPendingEntries + 1;
      Tick(t, Go(false, false));
    }

    method LoadIsFull(t: nat, k: Key, v: Value, j: nat) returns (full: bool)
      requires Valid() && In(t, Ins(LoadFull, k, v, j))
      modifies this`numPendingEntries, this`numEntries, this`isFull, this`st, this`log, cells
      ensures Valid() && In(t, Ins(if full then FullDown else TryLock, k, v, j))
      ensures Held(t) >= old(Held(t))
    {
      hide Inv, Path, Run, HeldUp;
      Others(t);
      full := isFull != 0;
      Tick(t, Go(false, false));
    }

    method DropPending(t: nat, l: Local)
      requires Valid() && In(t, l) && l.Ins? && (l.pc.FullDown? || l.pc.ThrownDown? || l.pc.DoneDown? || l.pc.LostDown?)
      modifies this`numPendingEntries, this`numEntries, this`isFull, this`st, this`log, cells
      ensures Valid() && old(log) <= log && In(t, AfterDrop(l))
      ensures Held(t) >= old(Held(t))
    {
      hide Inv, Path, Run, HeldUp;
      Others(t);
      IsPending(cfg, st, t);
      numPendingEntries := numPendingEntries - 1;
      Tick(t, Go(false, false));
    }

    /** The two tests of the spin. */
    method NoPendingInserts(t: nat, k: Key, v: Value, j: nat) returns (yes: bool)
      requires Valid() && In(t, Ins(SpinFull, k, v, j))
      modifies this`numPendingEntries, this`numEntries, this`isFull, this`st, this`log, cells
      ensures Valid() && old(log) <= log && In(t, Ins(if yes then StoreFull else SpinPending, k, v, j))
      ensures Held(t) >= old(Held(t))
    {
      hide Inv, Path, Run, HeldUp;
      Others(t);
      yes := isFull == 2;
      Tick(t, Go(false, false));
    }

    method NothingPending(t: nat, k: Key, v: Value, j: nat) returns (yes: bool)
      requires Valid() && In(t, Ins(SpinPending, k, v, j))
      modifies this`numPendingEntries, this`numEntries, this`isFull, this`st, this`log, cells
      ensures Valid() && old(log) <= log && In(t, Ins(if yes then StoreFull else SpinFull, k, v, j))
      ensures Held(t) >= old(Held(t)) + (if yes then 0 else 1)
    {
      hide Inv, Path, Run, HeldUp;
      Others(t);
      yes := numPendingEntries == 0;
      Tick(t, Go(false, false));
    }

    method StoreNoPending(t: nat, k: Key, v: Value, j: nat)
      requires Valid() && In(t, Ins(StoreFull, k, v, j))
      modifies this`numPendingEntries, this`numEntries, this`isFull, this`st, this`log, cells
      ensures Valid() && old(log) <= log && In(t, Ins(Recheck, k, v, j))
      ensures Held(t) >= old(Held(t))
    {
      hide Inv, Path, Run, HeldUp;
      Others(t);
      isFull := 2;
      Tick(t, Go(false, false));
    }

    method LoadKeyAgain(t: nat, k: Key, v: Value, j: nat, idx: nat) returns (empty: bool)
      requires Valid() && In(t, Ins(Recheck, k, v, j)) && j < cfg.cap && idx == Path(cfg, k, j)
      modifies this`numPendingEntries, this`numEntries, this`isFull, this`st, this`log, cells
      ensures Valid() && old(log) <= log && In(t, if empty then Done(k, Full) else Ins(Wait, k, v, j))
      ensures Held(t) >= old(Held(t))
    {
      hide Inv, Path, Run, HeldUp;
      Others(t);
      empty := cells[idx].Empty?;
      Tick(t, Go(false, false));
    }

    method TryLockCell(t: nat, k: Key, v: Value, j: nat, idx: nat) returns (ok: bool)
      requires Valid() && In(t, Ins(TryLock, k, v, j)) && j < cfg.cap && idx == Path(cfg, k, j)
      modifies this`numPendingEntries, this`numEntries, this`isFull, this`st, this`log, cells
      ensures Valid() && old(log) <= log && In(t, Ins(if ok then Build else LostDown, k, v, j))
      ensures ok ==> cells[idx] == Locked(t)
      ensures Held(t) >= old(Held(t))
    {
      hide Inv, Path, Run, HeldUp;
      Others(t);
      ok := cells[idx].Empty?;
      if ok {
        cells[idx] := Locked(t);
      }
      Tick(t, Go(false, false));
      assert cells[..] == st.cells;
    }

    /** The value is constructed and the key stored, or the constructor throws. */
    method UnlockCell(t: nat, k: Key, v: Value, j: nat, idx: nat, throws: bool)
      requires Valid() && In(t, Ins(Build, k, v, j)) && j < cfg.cap && idx == Path(cfg, k, j)
      modifies this`numPendingEntries, this`numEntries, this`isFull, this`st, this`log, cells
      ensures Valid() && In(t, Ins(if throws then ThrownDown else DoneDown, k, v, j))
      ensures Held(t) >= old(Held(t))
    {
      hide Inv, Path, Run, HeldUp;
      Others(t);
      cells[idx] := if throws then Empty else Real(k, v, j);
      Tick(t, Go(throws, false));
      assert cells[..] == st.cells;
    }

    method RaiseEntries(t: nat, k: Key, v: Value, j: nat)
      requires Valid() && In(t, Ins(CountEntry, k, v, j))
      modifies this`numPendingEntries, this`numEntries, this`isFull, this`st, this`log, cells
      ensures Valid() && In(t, Ins(ReadEntries, k, v, j))
      ensures Held(t) >= old(Held(t))
    {
      hide Inv, Path, Run, HeldUp;
      Others(t);
      numEntries := numEntries + 1;
      Tick(t, Go(false, false));
    }

    /** readFast, which never reads more than there is, against maxEntries_. */
    method ReadsMany(t: nat, k: Key, v: Value, j: nat, idx: nat) returns (many: bool)
      requires Valid() && In(t, Ins(ReadEntries, k, v, j)) && j < cfg.cap && idx == Path(cfg, k, j)
      modifies this`numPendingEntries, this`numEntries, this`isFull, this`st, this`log, cells
      ensures Valid() && In(t, if many then Ins(MarkFull, k, v, j) else Done(k, Inserted(idx)))
      ensures Held(t) >= old(Held(t))
    {
      hide Inv, Path, Run, HeldUp;
      Others(t);
      var read: int := *;
      if read > numEntries {
        read := numEntries;
      }
      many := read >= cfg.maxEntries;
      Tick(t, Go(false, many));
    }

    method StoreNoNew(t: nat, k: Key, v: Value, j: nat, idx: nat)
      requires Valid() && In(t, Ins(MarkFull, k, v, j)) && j < cfg.cap && idx == Path(cfg, k, j)
      modifies this`numPendingEntries, this`numEntries, this`isFull, this`st, this`log, cells
      ensures Valid() && In(t, Done(k, Inserted(idx)))
      ensures Held(t) >= old(Held(t))
    {
      hide Inv, Path, Run, HeldUp;
      Others(t);
      isFull := 1;
      Tick(t, Go(false, false));
    }

    /** The entry count, and NO_NEW_INSERTS when it reads as too high. */
    method CountInsert(t: nat, k: Key, v: Value, j: nat, idx: nat)
      requires Valid() && In(t, Ins(CountEntry, k, v, j)) && j < cfg.cap && idx == Path(cfg, k, j)
      modifies this`numPendingEntries, this`numEntries, this`isFull, this`st, this`log, cells
      ensures Valid() && In(t, Done(k, Inserted(idx)))
      ensures Held(t) >= old(Held(t))
    {
      hide Inv, Path, Exec, Run, AtomicHashArray.Going, AtomicHashArray.Held;
      RaiseEntries(t, k, v, j);
      var many := ReadsMany(t, k, v, j, idx);
      if many {
        StoreNoNew(t, k, v, j, idx);
      }
    }

    method LoadUnlocked(t: nat, k: Key, v: Value, j: nat, idx: nat) returns (yes: bool)
      requires Valid() && In(t, Ins(Wait, k, v, j)) && j < cfg.cap && idx == Path(cfg, k, j)
      modifies this`numPendingEntries, this`numEntries, this`isFull, this`st, this`log, cells
      ensures Valid() && In(t, Ins(if yes then Compare else Wait, k, v, j))
      ensures Held(t) >= old(Held(t)) + (if yes then 0 else 1)
    {
      hide Inv, Path, Run, HeldUp;
      Others(t);
      yes := !cells[idx].Locked?;
      Tick(t, Go(false, false));
    }

    method LoadThisKey(t: nat, k: Key, v: Value, j: nat, idx: nat) returns (x: Cell)
      requires Valid() && In(t, Ins(Compare, k, v, j)) && j < cfg.cap && idx == Path(cfg, k, j)
      modifies this`numPendingEntries, this`numEntries, this`isFull, this`st, this`log, cells
      ensures Valid() && In(t, AfterCompare(cfg.cap, x, k, v, j, idx))
      ensures Held(t) >= old(Held(t)) + (if x.Empty? || x.Locked? then 1 else 0)
    {
      hide Inv, Path, Run, HeldUp;
      Others(t);
      x := cells[idx];
      Tick(t, Go(false, false));
    }

    // ----- insertInternal -----

    /** The way out of an array that is marked full, as steps of the insert; a refused key
        stays refused. */
    method LeaveFull(t: nat, k: Key, v: Value, j: nat, idx: nat, spins: nat) returns (r: Option<bool>)
      requires Valid() && In(t, Ins(FullDown, k, v, j)) && j < cfg.cap && idx == Path(cfg, k, j)
      modifies this`numPendingEntries, this`numEntries, this`isFull, this`st, this`log, cells
      ensures Valid() && Going(t) && old(log) <= log
      ensures Held(t) >= old(Held(t)) + (if r.None? then spins + 1 else 0)
      ensures r == Some(true) ==> In(t, Done(k, Full)) && k in st.fullKeys
      ensures r == Some(false) ==> In(t, Ins(Wait, k, v, j))
    {
      hide Inv, Path, Exec, Run, AtomicHashArray.Going, AtomicHashArray.Held;
      DropPending(t, Ins(FullDown, k, v, j));
      var left := spins;
      while true
        invariant Valid() && In(t, Ins(SpinFull, k, v, j)) && old(log) <= log
        invariant 0 <= left <= spins && Held(t) >= old(Held(t)) + spins - left
        decreases left
      {
        var two := NoPendingInserts(t, k, v, j);
        if two {
          break;
        }
        var zero := NothingPending(t, k, v, j);
        if zero {
          break;
        }
        if left == 0 {
          return None;
        }
        left := left - 1;
      }
      StoreNoPending(t, k, v, j);
      var empty := LoadKeyAgain(t, k, v, j, idx);
      RefusedKnown(cfg, st, t);
      return Some(empty);
    }

    /** An empty cell was met: the call ends here, or goes on with waiting. */
    method AtEmptyCell(t: nat, k: Key, v: Value, j: nat, idx: nat, throws: bool, spins: nat)
      returns (r: Option<Option<Result>>)
      requires Valid() && In(t, Ins(CountUp, k, v, j)) && j < cfg.cap && idx == Path(cfg, k, j)
      modifies this`numPendingEntries, this`numEntries, this`isFull, this`st, this`log, cells
      ensures Valid() && Going(t) && Held(t) >= old(Held(t)) + (if r.None? then spins + 1 else 0)
      ensures r.Some? ==> if r.value.Some? then In(t, Done(k, r.value.value)) else In(t, Ins(Wait, k, v, j))
      ensures r == Some(Some(Threw)) ==> throws
    {
      hide Inv, Path, Exec, Run, AtomicHashArray.Going, AtomicHashArray.Held;
      RaisePending(t, k, v, j);
      var full := LoadIsFull(t, k, v, j);
      if full {
        var refused := LeaveFull(t, k, v, j, idx, spins);
        return if refused.None? then None else Some(if refused.value then Some(Full) else None);
      }
      var locked := TryLockCell(t, k, v, j, idx);
      if !locked {
        DropPending(t, Ins(LostDown, k, v, j));
        return Some(None);
      }
      UnlockCell(t, k, v, j, idx, throws);
      if throws {
        DropPending(t, Ins(ThrownDown, k, v, j));
        return Some(Some(Threw));
      }
      DropPending(t, Ins(DoneDown, k, v, j));
      CountInsert(t, k, v, j, idx);
      return Some(Some(Inserted(idx)));
    }

    method WaitUnlocked(t: nat, k: Key, v: Value, j: nat, idx: nat, spins: nat) returns (ok: bool)
      requires Valid() && In(t, Ins(Wait, k, v, j)) && j < cfg.cap && idx == Path(cfg, k, j)
      modifies this`numPendingEntries, this`numEntries, this`isFull, this`st, this`log, cells
      ensures Valid() && Going(t) && (ok ==> In(t, Ins(Compare, k, v, j)))
      ensures Held(t) >= old(Held(t)) + (if ok then 0 else spins + 1)
    {
      hide Inv, Path, Exec, Run, AtomicHashArray.Going, AtomicHashArray.Held;
      var left := spins;
      ok := LoadUnlocked(t, k, v, j, idx);
      while !ok && left > 0
        invariant Valid() && In(t, Ins(if ok then Compare else Wait, k, v, j))
        invariant 0 <= left <= spins && Held(t) >= old(Held(t)) + spins - left + (if ok then 0 else 1)
        decreases left
      {
        ok := LoadUnlocked(t, k, v, j, idx);
        left := left - 1;
      }
    }

    /** One turn of the probe loop at cell `idx`; None is a turn that did not end. */
    method TryCell(t: nat, k: Key, v: Value, j: nat, idx: nat, throws: bool, spins: nat) returns (r: Option<Turn>)
      requires Valid() && In(t, Ins(LoadCell, k, v, j)) && j < cfg.cap && idx == Path(cfg, k, j)
      modifies this`numPendingEntries, this`numEntries, this`isFull, this`st, this`log, cells
      ensures Valid() && Going(t) && (r == Some(Ended(Threw)) ==> throws)
      ensures Held(t) >= old(Held(t)) + (if r.None? then spins + 1 else if r.value.Again? then 1 else 0)
      ensures r.Some? ==> In(t, match r.value
                              case Ended(x) => Done(k, x)
                              case Again => Ins(LoadCell, k, v, j)
                              case Onward => if j + 1 >= cfg.cap then Done(k, Full) else Ins(LoadCell, k, v, j + 1))
    {
      hide Inv, Path, Exec, Run, AtomicHashArray.Going, AtomicHashArray.Held;
      var empty := LoadKey(t, k, v, j, idx);
      if empty {
        var e := AtEmptyCell(t, k, v, j, idx, throws, spins);
        if e.None? {
          return None;
        }
        if e.value.Some? {
          return Some(Ended(e.value.value));
        }
      }
      var unlocked := WaitUnlocked(t, k, v, j, idx, spins);
      if !unlocked {
        return None;
      }
      var x := LoadThisKey(t, k, v, j, idx);
      if x.Real? && x.key == k {
        return Some(Ended(Existing(idx)));
      }
      return Some(if x.Empty? || x.Locked? then Again else Onward);
    }

    /** The probe loop of an insert. */
    method ProbeForInsert(t: nat, k: Key, v: Value, throws: bool, spins: nat) returns (r: Option<Result>)
      requires Valid() && In(t, Ins(LoadCell, k, v, 0)) && cfg.cap > 0
      modifies this`numPendingEntries, this`numEntries, this`isFull, this`st, this`log, cells
      ensures Valid() && Going(t) && (r.Some? ==> In(t, Done(k, r.value))) && (r == Some(Threw) ==> throws)
      ensures r.None? ==> Held(t) > old(Held(t)) + spins
    {
      hide Inv, Path, Exec, Run, AtomicHashArray.Going, AtomicHashArray.Held;
      PathStarts(cfg, k);
      var idx, numProbes := Anchor(cfg, k), 0;
      var left := spins;
      while true
        invariant Valid() && In(t, Ins(LoadCell, k, v, numProbes)) && numProbes < cfg.cap
        invariant idx == Path(cfg, k, numProbes)
        invariant 0 <= left <= spins && Held(t) >= old(Held(t)) + spins - left
        decreases cfg.cap - numProbes, left
      {
        var turn := TryCell(t, k, v, numProbes, idx, throws, spins);
        if turn.None? || (turn.value.Again? && left == 0) {
          return None;
        }
        match turn.value {
          case Ended(x) =>
            return Some(x);
          case Again =>
            left := left - 1;
          case Onward =>
            numProbes := numProbes + 1;
            if numProbes >= cfg.cap {
              return Some(Full);
            }
            PathGoesOn(cfg, k, numProbes);
            idx := Probe(cfg, idx, numProbes);
        }
      }
    }

    /** The insert of `k`, one call of the state machine run from the state it was called
        in. Its answer was right at an instant of the call, and a refused key stays
        refused; without an answer the call was held up more than `spins` times. */
    method InsertInternal(t: nat, k: Key, v: Value, throws: bool, spins: nat) returns (r: Option<Result>)
      requires Valid() && t < |st.threads| && (st.threads[t].Idle? || st.threads[t].Done?)
      modifies this`numPendingEntries, this`numEntries, this`isFull, this`st, this`log, this`begun, cells
      ensures Valid() && |st.threads| == |old(st).threads| && CallRan(cfg, old(st), st, t, StartInsert(k, v))
      ensures r.Some? ==> In(t, Done(k, r.value)) && CallGave(cfg, old(st), st, t, StartInsert(k, v), r.value)
      ensures (r == Some(Full) ==> k in st.fullKeys) && (r == Some(Threw) ==> throws)
      ensures old(log) <= log && st == Run(cfg, old(st), log[|old(log)|..])
      ensures r.None? ==> HeldUp(cfg, old(st), log[|old(log)|..], t) > spins
    {
      hide Inv, Path, Run, AtomicHashArray.Going, HeldUp;
      Capacity(cfg, st);
      Begin(t, StartInsert(k, v));
      hide Exec;
      r := ProbeForInsert(t, k, v, throws, spins);
      if r.Some? {
        RefusedKnown(cfg, st, t);
      }
      CallsRan(old(st), old(log), t, StartInsert(k, v));
    }

    // ----- findInternal and erase -----

    method LoadForFind(t: nat, ghost l: Local, idx: nat) returns (x: Cell)
      requires Valid() && In(t, l) && l.Find? && l.j < cfg.cap && idx == Path(cfg, l.key, l.j)
      modifies this`numPendingEntries, this`numEntries, this`isFull, this`st, this`log, cells
      ensures Valid() && Going(t) && t < |st.threads|
      ensures x.Real? && x.key == l.key ==> In(t, Done(l.key, Found(idx)))
      ensures !(x.Real? && x.key == l.key) && (x.Empty? || l.j + 1 >= cfg.cap) ==> In(t, Done(l.key, NotFound(true)))
      ensures !(x.Real? && x.key == l.key) && !x.Empty? && l.j + 1 < cfg.cap ==>
        st.threads[t].Find? && st.threads[t].key == l.key && st.threads[t].j == l.j + 1
    {
      hide Inv, Path, Absent, Run;
      Others(t);
      x := cells[idx];
      Tick(t, Go(false, false));
      MissIsJustified(cfg, st, t);
    }

    method ProbeForFind(t: nat, k: Key) returns (r: Result)
      requires Valid() && In(t, Find(k, 0, false)) && cfg.cap > 0
      modifies this`numPendingEntries, this`numEntries, this`isFull, this`st, this`log, cells
      ensures Valid() && In(t, Done(k, r)) && (r.Found? || r == NotFound(true))
    {
      hide Inv, Path, Exec, Run, AtomicHashArray.Going;
      PathStarts(cfg, k);
      var idx, numProbes := Anchor(cfg, k), 0;
      while true
        invariant Valid() && Going(t) && t < |st.threads|
        invariant st.threads[t].Find? && st.threads[t].key == k && st.threads[t].j == numProbes
        invariant numProbes < cfg.cap && idx == Path(cfg, k, numProbes)
        decreases cfg.cap - numProbes
      {
        var x := LoadForFind(t, st.threads[t], idx);
        if x.Real? && x.key == k {
          return Found(idx);
        }
        if x.Empty? {
          return NotFound(true);
        }
        numProbes := numProbes + 1;
        if numProbes >= cfg.cap {
          return NotFound(true);
        }
        PathGoesOn(cfg, k, numProbes);
        idx := Probe(cfg, idx, numProbes);
      }
    }

    /** The find of `k`: a hit means that the cell held the key at an instant of the call,
        a miss that no cell did. */
    method FindInternal(t: nat, k: Key) returns (r: Result)
      requires Valid() && t < |st.threads| && (st.threads[t].Idle? || st.threads[t].Done?)
      modifies this`numPendingEntries, this`numEntries, this`isFull, this`st, this`log, this`begun, cells
      ensures Valid() && |st.threads| == |old(st).threads| && CallRan(cfg, old(st), st, t, StartFind(k))
      ensures In(t, Done(k, r)) && (r.Found? || r == NotFound(true)) && CallGave(cfg, old(st), st, t, StartFind(k), r)
    {
      hide Inv, Path, Run, AtomicHashArray.Going, HeldUp;
      Capacity(cfg, st);
      Begin(t, StartFind(k));
      hide Exec;
      r := ProbeForFind(t, k);
      CallsRan(old(st), old(log), t, StartFind(k));
    }

    method LoadForErase(t: nat, k: Key, j: nat, idx: nat) returns (x: Cell)
      requires Valid() && In(t, Erase(k, j)) && j < cfg.cap && idx == Path(cfg, k, j)
      modifies this`numPendingEntries, this`numEntries, this`isFull, this`st, this`log, cells
      ensures Valid() && Going(t)
      ensures x.Real? && x.key == k ==> st.threads[t].EraseCas? && st.threads[t].key == k && st.threads[t].j == j
      ensures x.Empty? || x.Locked? || (Settled(x, k) && j + 1 >= cfg.cap) ==> In(t, Done(k, NotRemoved(true)))
      ensures Settled(x, k) && j + 1 < cfg.cap ==> In(t, Erase(k, j + 1))
    {
      hide Inv, Path, Absent, Run;
      Others(t);
      x := cells[idx];
      Tick(t, Go(false, false));
      MissIsJustified(cfg, st, t);
    }

    method CasErased(t: nat, k: Key, j: nat, idx: nat) returns (ok: bool)
      requires Valid() && Going(t) && st.threads[t].EraseCas? && st.threads[t].key == k && st.threads[t].j == j
      requires j < cfg.cap && idx == Path(cfg, k, j)
      modifies this`numPendingEntries, this`numEntries, this`isFull, this`st, this`log, cells
      ensures Valid() && In(t, Done(k, if ok then Removed else NotRemoved(true)))
    {
      hide Inv, Path, Run;
      Others(t);
      ok := cells[idx].Real? && cells[idx].key == k;
      if ok {
        cells[idx] := Erased;
      }
      Tick(t, Go(false, false));
      assert cells[..] == st.cells;
      MissIsJustified(cfg, st, t);
    }

    method ProbeForErase(t: nat, k: Key) returns (erased: nat)
      requires Valid() && In(t, Erase(k, 0)) && cfg.cap > 0
      modifies this`numPendingEntries, this`numEntries, this`isFull, this`st, this`log, cells
      ensures Valid() && erased <= 1 && In(t, Done(k, if erased == 1 then Removed else NotRemoved(true)))
    {
      hide Inv, Path, Exec, Run, AtomicHashArray.Going;
      PathStarts(cfg, k);
      var idx, numProbes := Anchor(cfg, k), 0;
      while true
        invariant Valid() && In(t, Erase(k, numProbes)) && numProbes < cfg.cap && idx == Path(cfg, k, numProbes)
        decreases cfg.cap - numProbes
      {
        var x := LoadForErase(t, k, numProbes, idx);
        if x.Empty? || x.Locked? {
          return 0;
        }
        if x.Real? && x.key == k {
          var ok := CasErased(t, k, numProbes, idx);
          return if ok then 1 else 0;
        }
        numProbes := numProbes + 1;
        if numProbes >= cfg.cap {
          return 0;
        }
        PathGoesOn(cfg, k, numProbes);
        idx := Probe(cfg, idx, numProbes);
      }
    }

    /** The erase of `k`: one means that this call took the key out, zero that at an
        instant of the call no cell held it. */
    method EraseKey(t: nat, k: Key) returns (erased: nat)
      requires Valid() && t < |st.threads| && (st.threads[t].Idle? || st.threads[t].Done?)
      modifies this`numPendingEntries, this`numEntries, this`isFull, this`st, this`log, this`begun, cells
      ensures Valid() && |st.threads| == |old(st).threads| && CallRan(cfg, old(st), st, t, StartErase(k))
      ensures erased <= 1 && In(t, Done(k, if erased == 1 then Removed else NotRemoved(true)))
      ensures CallGave(cfg, old(st), st, t, StartErase(k), if erased == 1 then Removed else NotRemoved(true))
    {
      hide Inv, Path, Run, AtomicHashArray.Going, HeldUp;
      Capacity(cfg, st);
      Begin(t, StartErase(k));
      hide Exec;
      erased := ProbeForErase(t, k);
      CallsRan(old(st), old(log), t, StartErase(k));
    }
  }

  /** After the pending count went down. */
  function AfterDrop(l: Local): Local
    requires l.Ins?
  {
    match l.pc
    case FullDown => l.(pc := SpinFull)
    case ThrownDown => Done(l.key, Threw)
    case DoneDown => l.(pc := CountEntry)
    case _ => l.(pc := Wait)
  }

  /** After the key of an unlocked cell was read. */
  function AfterCompare(cap: nat, x: Cell, k: Key, v: Value, j: nat, idx: nat): Local {
    if x.Real? && x.key == k then Done(k, Existing(idx))
    else if x.Empty? || x.Locked? then Ins(LoadCell, k, v, j)
    else if j + 1 >= cap then Done(k, Full)
    else Ins(LoadCell, k, v, j + 1)
  }

  lemma Capacity(cfg: Config, s: State)
    requires Inv(cfg, s)
    ensures |s.cells| == cfg.cap > 0
  {
  }

  lemma IsPending(cfg: Config, s: State, t: nat)
    requires Inv(cfg, s) && t < |s.threads| && Pending(s.threads[t])
    ensures s.pending > 0
  {
    InvThread(cfg, s, t);
  }

  lemma RefusedKnown(cfg: Config, s: State, t: nat)
    requires Inv(cfg, s) && t < |s.threads|
    ensures s.threads[t].Done? && s.threads[t].result.Full? ==> s.threads[t].key in s.fullKeys
  {
    InvThread(cfg, s, t);
  }

  lemma MissIsJustified(cfg: Config, s: State, t: nat)
    requires Inv(cfg, s) && t < |s.threads|
    ensures s.threads[t].Done? && (s.threads[t].result.NotFound? || s.threads[t].result.NotRemoved?) ==>
      s.threads[t].result.absent
  {
    InvThread(cfg, s, t);
  }

  lemma PathStarts(cfg: Config, k: Key)
    requires cfg.cap > 0
    ensures Path(cfg, k, 0) == Anchor(cfg, k)
  {
  }

  lemma PathGoesOn(cfg: Config, k: Key, j: nat)
    requires 0 < j < cfg.cap
    ensures Path(cfg, k, j) == Probe(cfg, Path(cfg, k, j - 1), j)
  {
  }
}
