/** insertInternal, findInternal and erase of libs/folly/folly/AtomicHashMap-inl.h:106-319 as
    written: loops over the sub-maps that change the pointers and numMapsAllocated_ in
    place, with the other threads running between any two accesses. Each is one call in a
    run of module HashMap from the state it was called in; `spins` bounds the turns of each
    loop that waits or tries again, and None is a call that has not come to an end by
    then. */
module HashMapProgram {
  import opened Common
  import opened HashMap
  import opened HashMapCalls
  import opened HashMapSizes
  import HashArray

  ghost predicate NotOf(schedule: seq<(nat, Action)>, t: nat) {
    forall i :: 0 <= i < |schedule| ==> schedule[i].0 != t
  }

  /** `s'` is where other threads than `t` can bring `s`. */
  ghost predicate OthersRan(s: State, s': State, t: nat) {
    exists schedule :: NotOf(schedule, t) && s' == Run(s, schedule)
  }

  lemma {:induction false} OthersKeep(s: State, schedule: seq<(nat, Action)>, t: nat)
    requires t < |s.threads| && NotOf(schedule, t)
    ensures var s' := Run(s, schedule);
      |s'.threads| == |s.threads| && s'.threads[t] == s.threads[t] && s'.given == s.given && s.num <= s'.num
  {
    if |schedule| > 0 {
      hide Exec;
      var less, last := schedule[..|schedule| - 1], schedule[|schedule| - 1];
      OthersKeep(s, less, t);
      UndisturbedThread(Run(s, less), t, last.0, last.1);
      SettingsStay(Run(s, less), last.0, last.1);
    }
  }

  class AtomicHashMap {
    /** The sub-maps, each with its array; their insides move by the calls into them. */
    var subMaps: seq<SubMap>
    var numMapsAllocated: nat
    const given: Settings
    const growth: real
    const threadCount: nat
    ghost var st: State
    /** Every step since the map was made, and what that was when the call at hand had
        taken its first. */
    ghost var log: seq<(nat, Action)>
    ghost var begun: seq<(nat, Action)>
    /** Whether the constructor of the call at hand may throw. */
    ghost var mayThrow: bool

    ghost predicate Traced()
      reads this
    {
      ValidSettings(given) && Inv(st) && Sized(st) && st == Run(Initial(given, threadCount), log)
    }

    ghost predicate Valid()
      reads this
    {
      && Traced() && subMaps == st.subMaps && numMapsAllocated == st.num && given == st.given
      && growth == GrowthOf(given) && |st.threads| == threadCount
    }

    /** The theorems about all runs apply to the map as it is. */
    lemma IsReachable()
      requires Valid()
      ensures Reachable(st)
    {
    }

    /** Thread `t` began its call with the last step of `begun` and has only gone on
        since. */
    ghost predicate Going(t: nat)
      reads this
    {
      && t < |st.threads| && |begun| > 0 && begun <= log && begun[|begun| - 1].0 == t
      && forall i :: |begun| <= i < |log| && log[i].0 == t ==> Fits(log[i].1)
    }

    ghost predicate Fits(a: Action)
      reads this
    {
      a.Go? && (a.throws ==> mayThrow)
    }

    /** The steps that `t` has taken. */
    ghost function Taken(t: nat): nat
      reads this
    {
      Steps(log, t)
    }

    /** Thread `t` is at `l` of its call. */
    ghost predicate In(t: nat, l: Local)
      reads this
    {
      t < |st.threads| && Going(t) && st.threads[t] == l
    }

    constructor (given: Settings, threadCount: nat)
      requires ValidSettings(given)
      ensures Valid() && st == Initial(given, threadCount) && log == []
    {
      var cfg := Primary(given);
      subMaps := [Real(cfg, HashArray.Initial(cfg, threadCount), 0)] + seq(NUM_SUB_MAPS - 1, _ => Null);
      numMapsAllocated := 1;
      this.given, this.threadCount := given, threadCount;
      growth := if given.growthFactor < 0.0 then 1.0 - given.maxLoad else given.growthFactor;
      log, begun, mayThrow := [], [], false;
      st := Initial(given, threadCount);
      new;
      hide Inv, Sized, Primary, ValidSettings;
      InitialInv(given, threadCount);
      SizedRun(given, threadCount, []);
    }

    /** The other threads run for a while. The last two clauses follow (`OthersKeep`). */
    method Others(t: nat)
      requires Valid() && t < |st.threads|
      modifies this`subMaps, this`numMapsAllocated, this`st, this`log
      ensures Valid() && OthersRan(old(st), st, t)
      ensures old(log) <= log && NotOf(log[|old(log)|..], t)
      ensures |st.threads| == |old(st).threads| && st.threads[t] == old(st).threads[t]
      ensures old(st).num <= st.num && Taken(t) == old(Taken(t))
    {
      assert NotOf([], t) && st == Run(st, []);
      OthersKeep(st, [], t);
    }

    ghost method Tick(t: nat, a: Action)
      requires Traced() && t < |st.threads|
      modifies this`st, this`log
      ensures Traced() && st == Exec(old(st), t, a) && log == old(log) + [(t, a)] && Taken(t) == old(Taken(t)) + 1
    {
      hide Inv, Exec, Sized;
      ExecInv(st, t, a);
      SizedStep(st, t, a);
      st := Exec(st, t, a);
      log := log + [(t, a)];
      assert log[..|log| - 1] == old(log);
    }

    /** The first step of a call. */
    ghost method Start(t: nat, start: Action, throws: bool)
      requires Valid() && t < |st.threads| && (st.threads[t].Idle? || st.threads[t].Done?) && !start.Go?
      modifies this`st, this`log, this`begun, this`mayThrow
      ensures Valid() && In(t, Begin(start)) && begun == old(log) + [(t, start)] && mayThrow == throws
      ensures Taken(t) > old(Taken(t))
    {
      hide Inv, Run, ExecGo, Steps;
      begun, mayThrow := log + [(t, start)], throws;
      Tick(t, start);
    }

    /** What the steps since `before` amount to, when `t` began a call there. */
    lemma CallsRan(s: State, before: seq<(nat, Action)>, t: nat, start: Action)
      requires Valid() && Going(t) && begun == before + [(t, start)] && !start.Go?
      requires s == Run(Initial(given, threadCount), before) && Inv(s)
      requires t < |s.threads| && (s.threads[t].Idle? || s.threads[t].Done?)
      ensures t < |st.threads| && CallRan(s, st, t, start)
      ensures st.threads[t].Done? ==> CallGave(s, st, t, start, st.threads[t].result)
      ensures st.threads[t].Done? && st.threads[t].result.Threw? ==> mayThrow
      ensures before <= log && st == Run(s, log[|before|..]) && Taken(t) == Steps(before, t) + Steps(log[|before|..], t)
    {
      hide Inv, Run, Added, Took, SawAt, SawAbsent, SawFull, ChangedNothing, Steps;
      var schedule := log[|before|..];
      assert log == before + schedule;
      StepsAppend(before, schedule, t);
      RunAppend(Initial(given, threadCount), before, schedule);
      assert IsCall(schedule, t, start);
      AnswerIsJustified(s, t, start, schedule);
    }

    // ----- Calls into a sub-map -----

    /** The pointer is loaded and the call begins. */
    method Enter(t: nat, l: Local, i: nat, start: HashArray.Action, inside: Local, a: Action)
      requires Valid() && In(t, l) && Fits(a) && Enters(l, i, start, inside)
      modifies this`subMaps, this`numMapsAllocated, this`st, this`log
      ensures Valid() && In(t, inside)
      ensures Taken(t) > old(Taken(t))
    {
      hide HashArray.Exec, Inv, StepSub, Run, Steps, Sized, ConfigAt, CanGrow;
      Others(t);
      Published(st, t);
      assert IsReal(subMaps, i);
      var m := subMaps[i];
      subMaps := subMaps[i := m.(arr := HashArray.Exec(m.cfg, m.arr, t, start))];
      Tick(t, a);
    }

    /** The call runs to its answer. */
    method RunSub(t: nat, l: Local, i: nat, a: Action, spins: nat) returns (r: Option<HashArray.Result>)
      requires Valid() && In(t, l) && InsideOf(l) == Some(i) && Fits(a)
      modifies this`subMaps, this`numMapsAllocated, this`st, this`log
      ensures Valid() && Going(t) && (r.Some? ==> In(t, AfterAnswer(l, r.value)))
      ensures Taken(t) >= old(Taken(t)) + (if r.None? then spins else 0)
    {
      hide Inv, Exec, Sized, Run, AtomicHashMap.Going, AtomicHashMap.Taken;
      var left := spins;
      while left > 0
        invariant 0 <= left <= spins && Valid() && In(t, l) && Taken(t) >= old(Taken(t)) + spins - left
      {
        r := StepInside(t, l, i, a);
        if r.Some? {
          return;
        }
        left := left - 1;
      }
      return None;
    }

    method StepInside(t: nat, l: Local, i: nat, a: Action) returns (r: Option<HashArray.Result>)
      requires Valid() && In(t, l) && InsideOf(l) == Some(i) && Fits(a)
      modifies this`subMaps, this`numMapsAllocated, this`st, this`log
      ensures Valid() && In(t, if r.Some? then AfterAnswer(l, r.value) else l)
      ensures Taken(t) > old(Taken(t))
    {
      hide HashArray.Exec, Inv, EnterSub, Run, Steps, Sized, ConfigAt, CanGrow;
      Others(t);
      Published(st, t);
      assert IsReal(subMaps, i);
      var m := subMaps[i];
      if m.arr.threads[t].Done? {
        r := Some(m.arr.threads[t].result);
      } else {
        r := None;
        subMaps := subMaps[i := m.(arr := HashArray.Exec(m.cfg, m.arr, t, HashArray.Go(a.throws, a.mark)))];
      }
      Tick(t, a);
    }

    // ----- The accesses of an insert -----

    method LoadNum(t: nat, k: Key, v: Value, a: Action) returns (next: nat)
      requires Valid() && In(t, InsertStart(k, v)) && Fits(a)
      modifies this`subMaps, this`numMapsAllocated, this`st, this`log
      ensures Valid() && In(t, InsertLoad(k, v, 0, next))
      ensures Taken(t) > old(Taken(t))
    {
      hide Inv, EnterSub, StepSub, Run, Steps, Sized, ConfigAt;
      Others(t);
      next := numMapsAllocated;
      Tick(t, a);
    }

    /** Whether the growth fraction of the primary is a cell or more. */
    method GrowthLeft() returns (room: bool)
      requires Valid()
      ensures room == CanGrow(given)
    {
      hide Inv, Sized, Run, Primary, ValidSettings, Grows;
      PrimaryThere(st);
      var primary := subMaps[0].cfg;
      return Grows(primary.cap, growth);
    }

    /** With what the sub-map after `next` others is made. */
    method NewConfig(next: nat) returns (cfg: HashArray.Config)
      requires Valid() && next >= 1
      ensures cfg == ConfigAt(given, next)
    {
      hide Inv, Sized, Run, Primary, ValidSettings, ArrayFor, ReportedLoad, Power, NumCells, NewSize;
      PrimaryThere(st);
      var primary := subMaps[0].cfg;
      var numCellsAllocated := NumCells(primary.cap, growth, next);
      var newSize := NewSize(numCellsAllocated, growth);
      return ArrayFor(given, newSize, ReportedLoad(primary));
    }

    /** After the loop: no more sub-maps, or a new one is wanted. */
    method WantMore(t: nat, k: Key, v: Value, next: nat, a: Action) returns (more: bool)
      requires Valid() && In(t, InsertLoad(k, v, next, next)) && Fits(a)
      modifies this`subMaps, this`numMapsAllocated, this`st, this`log
      ensures Valid() && In(t, if more then TryLockMap(k, v, next) else Done(k, MapFull))
      ensures Taken(t) > old(Taken(t))
    {
      hide Inv, EnterSub, StepSub, Run, Steps, Sized, ConfigAt;
      Others(t);
      var room := GrowthLeft();
      more := next < NUM_SUB_MAPS && room;
      hide CanGrow;
      Tick(t, a);
    }

    method LockMap(t: nat, k: Key, v: Value, next: nat, a: Action) returns (ok: bool)
      requires Valid() && In(t, TryLockMap(k, v, next)) && Fits(a)
      modifies this`subMaps, this`numMapsAllocated, this`st, this`log
      ensures Valid() && In(t, if ok then CreateMap(k, v, next) else SpinMap(k, v, next))
      ensures Taken(t) > old(Taken(t))
    {
      hide Inv, EnterSub, StepSub, Run, Steps, Sized, ConfigAt;
      Others(t);
      Published(st, t);
      ok := subMaps[next].Null?;
      if ok {
        subMaps := subMaps[next := LockedPtr(t)];
      }
      Tick(t, a);
    }

    method StoreMap(t: nat, k: Key, v: Value, next: nat, a: Action)
      requires Valid() && In(t, CreateMap(k, v, next)) && Fits(a)
      modifies this`subMaps, this`numMapsAllocated, this`st, this`log
      ensures Valid() && In(t, Publish(k, v, next)) && Taken(t) > old(Taken(t))
    {
      hide Inv, EnterSub, StepSub, Run, Steps, Sized, ConfigAt;
      Others(t);
      Published(st, t);
      NewHasCells(st, t);
      var cfg := NewConfig(next);
      subMaps := subMaps[next := Real(cfg, HashArray.Initial(cfg, threadCount), t)];
      hide CanGrow;
      Tick(t, a);
    }

    method PublishMap(t: nat, k: Key, v: Value, next: nat, a: Action)
      requires Valid() && In(t, Publish(k, v, next)) && Fits(a)
      modifies this`subMaps, this`numMapsAllocated, this`st, this`log
      ensures Valid() && In(t, LoadLast(k, v, next)) && Taken(t) > old(Taken(t))
    {
      hide Inv, EnterSub, StepSub, Run, Steps, Sized, ConfigAt;
      Others(t);
      numMapsAllocated := numMapsAllocated + 1;
      Tick(t, a);
    }

    /** The new array is stored, then published. */
    method Grow(t: nat, k: Key, v: Value, next: nat, a: Action)
      requires Valid() && In(t, CreateMap(k, v, next)) && Fits(a)
      modifies this`subMaps, this`numMapsAllocated, this`st, this`log
      ensures Valid() && In(t, LoadLast(k, v, next))
      ensures Taken(t) > old(Taken(t))
    {
      hide Inv, Exec, Sized, Run, AtomicHashMap.Going, AtomicHashMap.Taken;
      StoreMap(t, k, v, next, a);
      PublishMap(t, k, v, next, a);
    }

    method WaitPublished(t: nat, k: Key, v: Value, next: nat, a: Action, spins: nat) returns (ok: bool)
      requires Valid() && In(t, SpinMap(k, v, next)) && Fits(a)
      modifies this`subMaps, this`numMapsAllocated, this`st, this`log
      ensures Valid() && Going(t) && (ok ==> In(t, LoadLast(k, v, next)))
      ensures Taken(t) >= old(Taken(t)) + (if !ok then spins else 0)
    {
      hide Inv, EnterSub, StepSub, Run, Steps, Sized, ConfigAt;
      var left := spins;
      while left > 0
        invariant 0 <= left <= spins && Valid() && In(t, SpinMap(k, v, next))
        invariant Taken(t) >= old(Taken(t)) + spins - left
      {
        Others(t);
        ok := next < numMapsAllocated;
        Tick(t, a);
        if ok {
          return true;
        }
        left := left - 1;
      }
      return false;
    }

    /** The loop over the sub-maps that exist: the first that does not refuse the key
        answers; Some(None) when all refuse. */
    method TryAll(t: nat, k: Key, v: Value, next: nat, a: Action, spins: nat) returns (r: Option<Option<Result>>)
      requires Valid() && In(t, InsertLoad(k, v, 0, next)) && Fits(a)
      modifies this`subMaps, this`numMapsAllocated, this`st, this`log
      ensures Valid() && Going(t)
      ensures r.Some? ==> In(t, if r.value.Some? then Done(k, r.value.value) else InsertLoad(k, v, next, next))
      ensures Taken(t) >= old(Taken(t)) + (if r.None? then spins else 0)
    {
      hide Inv, Exec, Sized, Run, AtomicHashMap.Going, AtomicHashMap.Taken;
      var i := 0;
      while i < next
        invariant i <= next && Valid() && In(t, InsertLoad(k, v, i, next)) && Taken(t) >= old(Taken(t))
      {
        var inside := InsertAt(k, v, i, next, false);
        Enter(t, InsertLoad(k, v, i, next), i, HashArray.StartInsert(k, v), inside, a);
        var q := RunSub(t, inside, i, a, spins);
        if q.None? {
          return None;
        }
        var l := AfterAnswer(inside, q.value);
        if l.Done? {
          return Some(Some(l.result));
        }
        i := i + 1;
      }
      return Some(None);
    }

    /** A new sub-map, by this thread or another, and the insert into it; Some(None)
        when that one refuses the key too. */
    method GrowAndInsert(t: nat, k: Key, v: Value, next: nat, a: Action, spins: nat) returns (r: Option<Option<Result>>)
      requires Valid() && In(t, TryLockMap(k, v, next)) && Fits(a)
      modifies this`subMaps, this`numMapsAllocated, this`st, this`log
      ensures Valid() && Going(t)
      ensures r.Some? ==> In(t, if r.value.Some? then Done(k, r.value.value) else InsertStart(k, v))
      ensures Taken(t) >= old(Taken(t)) + (if r.None? then spins else 0)
    {
      hide Inv, Exec, Sized, Run, AtomicHashMap.Going, AtomicHashMap.Taken;
      var locked := LockMap(t, k, v, next, a);
      if locked {
        Grow(t, k, v, next, a);
      } else {
        var ok := WaitPublished(t, k, v, next, a, spins);
        if !ok {
          return None;
        }
      }
      var inside := InsertAt(k, v, next, next, true);
      Enter(t, LoadLast(k, v, next), next, HashArray.StartInsert(k, v), inside, a);
      var q := RunSub(t, inside, next, a, spins);
      if q.None? {
        return None;
      }
      var l := AfterAnswer(inside, q.value);
      return Some(if l.Done? then Some(l.result) else None);
    }

    method InsertLoop(t: nat, k: Key, v: Value, a: Action, spins: nat) returns (r: Option<Result>)
      requires Valid() && In(t, InsertStart(k, v)) && Fits(a)
      modifies this`subMaps, this`numMapsAllocated, this`st, this`log
      ensures Valid() && Going(t) && (r.Some? ==> In(t, Done(k, r.value)))
      ensures Taken(t) >= old(Taken(t)) + (if r.None? then spins else 0)
    {
      hide Inv, Exec, Sized, Run, AtomicHashMap.Going, AtomicHashMap.Taken;
      var left := spins;
      while left > 0
        invariant 0 <= left <= spins && Valid() && In(t, InsertStart(k, v)) && Taken(t) >= old(Taken(t)) + spins - left
      {
        var next := LoadNum(t, k, v, a);
        var q := TryAll(t, k, v, next, a, spins);
        if q.None? || q.value.Some? {
          return if q.None? then None else q.value;
        }
        var more := WantMore(t, k, v, next, a);
        if !more {
          return Some(MapFull);
        }
        q := GrowAndInsert(t, k, v, next, a, spins);
        if q.None? || q.value.Some? {
          return if q.None? then None else q.value;
        }
        left := left - 1;
      }
      return None;
    }

    /** The insert of `k`, one call of the state machine run from the state it was called
        in; its answer was right at an instant of the call. `a` says whether the value's
        constructor throws. */
    method InsertInternal(t: nat, k: Key, v: Value, a: Action, spins: nat) returns (r: Option<Result>)
      requires Valid() && t < |st.threads| && (st.threads[t].Idle? || st.threads[t].Done?) && a.Go?
      modifies this`subMaps, this`numMapsAllocated, this`st, this`log, this`begun, this`mayThrow
      ensures Valid() && CallRan(old(st), st, t, StartInsert(k, v)) && old(log) <= log
      ensures st == Run(old(st), log[|old(log)|..])
      ensures r.None? ==> Steps(log[|old(log)|..], t) >= spins
      ensures r.Some? ==> In(t, Done(k, r.value)) && CallGave(old(st), st, t, StartInsert(k, v), r.value)
      ensures r == Some(Threw) ==> a.throws
    {
      hide Inv, Exec, Sized, Run, AtomicHashMap.Going, Steps;
      Start(t, StartInsert(k, v), a.throws);
      r := InsertLoop(t, k, v, a, spins);
      CallsRan(old(st), old(log), t, StartInsert(k, v));
    }

    // ----- findInternal and erase -----

    method FindIn(t: nat, k: Key, i: nat, num: nat, a: Action, spins: nat) returns (r: Option<HashArray.Result>)
      requires Valid() && In(t, FindLoad(k, i, num)) && (i == 0 || i < num) && Fits(a)
      modifies this`subMaps, this`numMapsAllocated, this`st, this`log
      ensures Valid() && Going(t) && (r.Some? ==> In(t, AfterAnswer(FindAt(k, i, num), r.value)))
      ensures Taken(t) >= old(Taken(t)) + (if r.None? then spins else 0)
    {
      hide Inv, Exec, Sized, Run, AtomicHashMap.Going, AtomicHashMap.Taken;
      Enter(t, FindLoad(k, i, num), i, HashArray.StartFind(k), FindAt(k, i, num), a);
      r := RunSub(t, FindAt(k, i, num), i, a, spins);
    }

    method LoadNumForFind(t: nat, k: Key, a: Action) returns (num: nat)
      requires Valid() && In(t, FindNum(k)) && Fits(a)
      modifies this`subMaps, this`numMapsAllocated, this`st, this`log
      ensures Valid() && In(t, FindLoad(k, 1, num))
      ensures Taken(t) > old(Taken(t))
    {
      hide Inv, EnterSub, StepSub, Run, Steps, Sized, ConfigAt;
      Others(t);
      num := numMapsAllocated;
      Tick(t, a);
    }

    /** The primary sub-map first, then the others that exist by then. */
    method FindLoop(t: nat, k: Key, a: Action, spins: nat) returns (r: Option<Result>)
      requires Valid() && In(t, FindLoad(k, 0, 0)) && Fits(a)
      modifies this`subMaps, this`numMapsAllocated, this`st, this`log
      ensures Valid() && Going(t) && (r.Some? ==> In(t, Done(k, r.value)) && (r.value.At? || r.value.Missing?))
      ensures Taken(t) >= old(Taken(t)) + (if r.None? then spins else 0)
    {
      hide Inv, Exec, Sized, Run, AtomicHashMap.Going, AtomicHashMap.Taken;
      var q := FindIn(t, k, 0, 0, a, spins);
      if q.None? {
        return None;
      }
      if q.value.Found? {
        return Some(At(0, q.value.idx, true));
      }
      var numMaps := LoadNumForFind(t, k, a);
      var i := 1;
      while i < numMaps
        invariant 1 <= i && Valid() && In(t, FindLoad(k, i, numMaps)) && Taken(t) >= old(Taken(t))
      {
        q := FindIn(t, k, i, numMaps, a, spins);
        if q.None? {
          return None;
        }
        if q.value.Found? {
          return Some(At(i, q.value.idx, true));
        }
        i := i + 1;
      }
      Conclude(t, FindLoad(k, i, numMaps), a);
      return Some(Missing);
    }

    /** The find of `k`: a hit means that the cell of the sub-map held the key at an
        instant of the call, a miss that the key was nowhere in the map. */
    method FindInternal(t: nat, k: Key, a: Action, spins: nat) returns (r: Option<Result>)
      requires Valid() && t < |st.threads| && (st.threads[t].Idle? || st.threads[t].Done?) && a.Go?
      modifies this`subMaps, this`numMapsAllocated, this`st, this`log, this`begun, this`mayThrow
      ensures Valid() && CallRan(old(st), st, t, StartFind(k)) && old(log) <= log
      ensures st == Run(old(st), log[|old(log)|..])
      ensures r.None? ==> Steps(log[|old(log)|..], t) >= spins
      ensures r.Some? ==> In(t, Done(k, r.value)) && (r.value.At? || r.value.Missing?)
      ensures r.Some? ==> CallGave(old(st), st, t, StartFind(k), r.value)
    {
      hide Inv, Exec, Sized, Run, AtomicHashMap.Going, Steps;
      Start(t, StartFind(k), a.throws);
      r := FindLoop(t, k, a, spins);
      CallsRan(old(st), old(log), t, StartFind(k));
    }

    /** The end of a search of all sub-maps. */
    ghost method Conclude(t: nat, l: Local, a: Action)
      requires Valid() && In(t, l) && Fits(a)
      requires (l.FindLoad? && 0 < l.i && l.num <= l.i) || (l.EraseLoad? && l.num <= l.i)
      modifies this`st, this`log
      ensures Valid() && In(t, Done(l.key, if l.FindLoad? then Missing else NotRemoved))
      ensures Taken(t) > old(Taken(t))
    {
      hide Inv, EnterSub, StepSub, Run, Steps, Sized, ConfigAt;
      Tick(t, a);
    }

    method LoadNumForErase(t: nat, k: Key, a: Action) returns (num: nat)
      requires Valid() && In(t, EraseStart(k)) && Fits(a)
      modifies this`subMaps, this`numMapsAllocated, this`st, this`log
      ensures Valid() && In(t, EraseLoad(k, 0, num))
      ensures Taken(t) > old(Taken(t))
    {
      hide Inv, EnterSub, StepSub, Run, Steps, Sized, ConfigAt;
      Others(t);
      num := numMapsAllocated;
      Tick(t, a);
    }

    method EraseIn(t: nat, k: Key, i: nat, num: nat, a: Action, spins: nat) returns (r: Option<HashArray.Result>)
      requires Valid() && In(t, EraseLoad(k, i, num)) && i < num && Fits(a)
      modifies this`subMaps, this`numMapsAllocated, this`st, this`log
      ensures Valid() && Going(t) && (r.Some? ==> In(t, AfterAnswer(EraseAt(k, i, num), r.value)))
      ensures Taken(t) >= old(Taken(t)) + (if r.None? then spins else 0)
    {
      hide Inv, Exec, Sized, Run, AtomicHashMap.Going, AtomicHashMap.Taken;
      Enter(t, EraseLoad(k, i, num), i, HashArray.StartErase(k), EraseAt(k, i, num), a);
      r := RunSub(t, EraseAt(k, i, num), i, a, spins);
    }

    method EraseLoop(t: nat, k: Key, a: Action, spins: nat) returns (erased: Option<nat>)
      requires Valid() && In(t, EraseStart(k)) && Fits(a)
      modifies this`subMaps, this`numMapsAllocated, this`st, this`log
      ensures Valid() && Going(t)
      ensures erased.Some? ==> erased.value <= 1 && In(t, Done(k, if erased.value == 1 then Removed else NotRemoved))
      ensures Taken(t) >= old(Taken(t)) + (if erased.None? then spins else 0)
    {
      hide Inv, Exec, Sized, Run, AtomicHashMap.Going, AtomicHashMap.Taken;
      var numMaps := LoadNumForErase(t, k, a);
      var i := 0;
      while i < numMaps
        invariant Valid() && In(t, EraseLoad(k, i, numMaps)) && Taken(t) >= old(Taken(t))
      {
        var q := EraseIn(t, k, i, numMaps, a, spins);
        if q.None? {
          return None;
        }
        if q.value.Removed? {
          return Some(1);
        }
        i := i + 1;
      }
      Conclude(t, EraseLoad(k, i, numMaps), a);
      return Some(0);
    }

    /** The erase of `k`: one means that this call took the key out of the map, zero that
        at an instant of the call it was nowhere in it. */
    method EraseKey(t: nat, k: Key, a: Action, spins: nat) returns (erased: Option<nat>)
      requires Valid() && t < |st.threads| && (st.threads[t].Idle? || st.threads[t].Done?) && a.Go?
      modifies this`subMaps, this`numMapsAllocated, this`st, this`log, this`begun, this`mayThrow
      ensures Valid() && CallRan(old(st), st, t, StartErase(k)) && old(log) <= log
      ensures st == Run(old(st), log[|old(log)|..])
      ensures erased.None? ==> Steps(log[|old(log)|..], t) >= spins
      ensures erased.Some? ==> erased.value <= 1 && In(t, Done(k, if erased.value == 1 then Removed else NotRemoved))
      ensures erased.Some? ==>
        CallGave(old(st), st, t, StartErase(k), if erased.value == 1 then Removed else NotRemoved)
    {
      hide Inv, Exec, Sized, Run, AtomicHashMap.Going, Steps;
      Start(t, StartErase(k), a.throws);
      erased := EraseLoop(t, k, a, spins);
      CallsRan(old(st), old(log), t, StartErase(k));
    }
  }

  /** A loop head, and the call into sub-map `i` that it begins. */
  predicate Enters(l: Local, i: nat, start: HashArray.Action, inside: Local) {
    match l
    case InsertLoad(k, v, h, next) =>
      h == i < next && start == HashArray.StartInsert(k, v) && inside == InsertAt(k, v, i, next, false)
    case LoadLast(k, v, next) =>
      i == next && start == HashArray.StartInsert(k, v) && inside == InsertAt(k, v, i, i, true)
    case FindLoad(k, h, num) =>
      h == i && (i == 0 || i < num) && start == HashArray.StartFind(k) && inside == FindAt(k, i, num)
    case EraseLoad(k, h, num) => h == i < num && start == HashArray.StartErase(k) && inside == EraseAt(k, i, num)
    case _ => false
  }

  lemma PrimaryThere(s: State)
    requires Inv(s) && Sized(s)
    ensures IsReal(s.subMaps, 0) && s.subMaps[0].cfg == Primary(s.given)
  {
    FirstIsPrimary(s.given);
    hide ConfigAt;
    assert SlotAt(s.subMaps, s.num, s.threads, 0) && SizedAt(s, 0);
  }

  lemma NewHasCells(s: State, t: nat)
    requires Inv(s) && Sized(s) && t < |s.threads| && s.threads[t].CreateMap?
    ensures 1 <= s.threads[t].next < |s.subMaps| && ConfigAt(s.given, s.threads[t].next).cap > 0
  {
    hide ConfigAt, CanGrow;
    assert MayGrow(s, t) && ThreadOk(s.subMaps, s.num, t, s.threads[t]);
    NewCapacityPositive(s.given, s.threads[t].next);
  }

  /** The pointers that a thread loads point to sub-maps. */
  lemma Published(s: State, t: nat)
    requires Inv(s) && t < |s.threads|
    ensures |s.subMaps| == NUM_SUB_MAPS && 1 <= s.num <= NUM_SUB_MAPS
    ensures forall i :: 0 <= i < s.num ==> IsReal(s.subMaps, i)
    ensures ThreadOk(s.subMaps, s.num, t, s.threads[t])
    ensures forall i :: 0 <= i < |s.subMaps| && s.subMaps[i].Real? ==> |s.subMaps[i].arr.threads| == |s.threads|
  {
    InvThread(s, t);
    forall i | 0 <= i < |s.subMaps| && s.subMaps[i].Real? ensures |s.subMaps[i].arr.threads| == |s.threads| {
      assert ArrayOk(s.subMaps[i], |s.threads|);
    }
  }
}
