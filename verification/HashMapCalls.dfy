/** What the answers of the growing hash map mean, over the whole run of a call: each one
    was right at an instant of the call. */
module HashMapCalls {
  import opened Common
  import opened HashMap
  import opened HashMapSizes
  import HashArray
  import A = HashArrayCalls

  /** A schedule that begins with thread `t` starting a call and in which `t` starts no
      other. */
  ghost predicate IsCall(schedule: seq<(nat, Action)>, t: nat, start: Action) {
    |schedule| > 0 && schedule[0] == (t, start) && !start.Go? && OneCall(schedule[1..], t)
  }

  /** `s'` is where one call of `t`, finished or not, can bring `s` while the other
      threads run. */
  ghost predicate CallRan(s: State, s': State, t: nat, start: Action) {
    exists schedule :: IsCall(schedule, t, start) && s' == Run(s, schedule)
  }

  lemma {:induction false} RunAppend(s: State, x: seq<(nat, Action)>, y: seq<(nat, Action)>)
    ensures Run(s, x + y) == Run(Run(s, x), y)
    decreases |y|
  {
    hide Exec;
    if |y| == 0 {
      assert x + y == x;
    } else {
      RunAppend(s, x, y[..|y| - 1]);
      assert (x + y)[..|x + y| - 1] == x + y[..|y| - 1];
    }
  }

  // ----- Instants of a run -----

  /** Cell `c` of sub-map `i` holds `k`. */
  predicate HoldsAt(s: State, i: nat, c: nat, k: Key) {
    IsReal(s.subMaps, i) && A.HoldsAt(s.subMaps[i].arr.cells, c, k)
  }

  predicate HoldsPair(s: State, i: nat, c: nat, k: Key, v: Value) {
    IsReal(s.subMaps, i) && A.HoldsPair(s.subMaps[i].arr.cells, c, k, v)
  }

  /** The map is as large as it gets and every sub-map has refused `k`. */
  predicate FullFor(s: State, k: Key) {
    Placed(s.subMaps, 1, k) && (!CanGrow(s.given) || Placed(s.subMaps, NUM_SUB_MAPS, k))
  }

  ghost predicate SawAt(s: State, schedule: seq<(nat, Action)>, i: nat, c: nat, k: Key) {
    exists n :: 0 <= n <= |schedule| && HoldsAt(Run(s, schedule[..n]), i, c, k)
  }

  ghost predicate SawAbsent(s: State, schedule: seq<(nat, Action)>, k: Key) {
    exists n :: 0 <= n <= |schedule| && !InMap(Run(s, schedule[..n]), k)
  }

  ghost predicate SawFull(s: State, schedule: seq<(nat, Action)>, k: Key) {
    exists n :: 0 <= n <= |schedule| && FullFor(Run(s, schedule[..n]), k)
  }

  /** The `n`-th step was `t`'s and put `k`, which was nowhere in the map, into cell `c`
      of sub-map `i` with value `v`. */
  ghost predicate AddsAt(s: State, schedule: seq<(nat, Action)>, t: nat, i: nat, c: nat, k: Key, v: Value, n: nat) {
    && n < |schedule| && schedule[n].0 == t
    && !InMap(Run(s, schedule[..n]), k) && HoldsPair(Run(s, schedule[..n + 1]), i, c, k, v)
  }

  /** The `n`-th step was `t`'s and took `k` out of the map. */
  ghost predicate TakesAt(s: State, schedule: seq<(nat, Action)>, t: nat, k: Key, n: nat) {
    && n < |schedule| && schedule[n].0 == t
    && InMap(Run(s, schedule[..n]), k) && !InMap(Run(s, schedule[..n + 1]), k)
  }

  ghost predicate Added(s: State, schedule: seq<(nat, Action)>, t: nat, i: nat, c: nat, k: Key, v: Value) {
    exists n: nat :: AddsAt(s, schedule, t, i, c, k, v, n)
  }

  ghost predicate Took(s: State, schedule: seq<(nat, Action)>, t: nat, k: Key) {
    exists n: nat :: TakesAt(s, schedule, t, k, n)
  }

  /** No step of `t` put `k` into the map or took it out. */
  ghost predicate ChangedNothing(s: State, schedule: seq<(nat, Action)>, t: nat, k: Key) {
    forall n: nat :: n < |schedule| && schedule[n].0 == t ==>
      (InMap(Run(s, schedule[..n]), k) <==> InMap(Run(s, schedule[..n + 1]), k))
  }

  /** Thread `t` is in its value constructor, which throws. */
  predicate ThrowsNow(s: State, t: nat, a: Action) {
    && t < |s.threads| && a.Go? && a.throws && InsideOf(s.threads[t]).Some?
    && var i := InsideOf(s.threads[t]).value;
       && IsReal(s.subMaps, i) && t < |s.subMaps[i].arr.threads|
       && s.subMaps[i].arr.threads[t].Ins? && s.subMaps[i].arr.threads[t].pc.Build?
  }

  /** The `n`-th step was `t`'s value constructor, and it threw. */
  ghost predicate ThrowsAt(s: State, schedule: seq<(nat, Action)>, t: nat, n: nat) {
    n < |schedule| && schedule[n].0 == t && ThrowsNow(Run(s, schedule[..n]), t, schedule[n].1)
  }

  ghost predicate ThrewIn(s: State, schedule: seq<(nat, Action)>, t: nat) {
    exists n: nat :: ThrowsAt(s, schedule, t, n)
  }

  /** The answer `r` to the call `start` was right at an instant of the run. */
  ghost predicate Right(s: State, schedule: seq<(nat, Action)>, t: nat, start: Action, r: Result)
    requires !start.Go?
  {
    match r
    case At(i, c, success) =>
      if start.StartInsert? && success then Added(s, schedule, t, i, c, start.k, start.v)
      else SawAt(s, schedule, i, c, start.k)
    case Missing => SawAbsent(s, schedule, start.k)
    case NotRemoved => SawAbsent(s, schedule, start.k)
    case Removed => Took(s, schedule, t, start.k)
    case MapFull => SawFull(s, schedule, start.k)
    case Threw => ThrewIn(s, schedule, t)
  }

  /** `r` reports a change. */
  predicate Changes(start: Action, r: Result) {
    r.Removed? || (start.StartInsert? && r.At? && r.success)
  }

  /** So it was, and a call that does not report a change made none. */
  ghost predicate Justified(s: State, schedule: seq<(nat, Action)>, t: nat, start: Action, r: Result)
    requires !start.Go?
  {
    Right(s, schedule, t, start, r) && (Changes(start, r) || ChangedNothing(s, schedule, t, start.k))
  }

  function ValueOf(start: Action): Value { if start.StartInsert? then start.v else 0 }

  /** `CallRan` with an answer that the run justifies. */
  ghost predicate CallGave(s: State, s': State, t: nat, start: Action, r: Result) {
    && !start.Go?
    && exists schedule :: IsCall(schedule, t, start) && s' == Run(s, schedule) && Justified(s, schedule, t, start, r)
  }

  // ----- The positive answers, step by step -----

  /** What the run has shown by the time the call inside sub-map `i` is at `q`. */
  ghost predicate SubSoFar(s: State, schedule: seq<(nat, Action)>, t: nat, i: nat, cfg: HashArray.Config, k: Key,
                           v: Value, q: HashArray.Local)
  {
    match q
    case Ins(pc, _, _, j) => A.Built(pc) ==> j < cfg.cap && Added(s, schedule, t, i, HashArray.Path(cfg, k, j), k, v)
    case Done(_, r) =>
      && (r.Inserted? ==> Added(s, schedule, t, i, r.idx, k, v))
      && (r.Existing? || r.Found? ==> SawAt(s, schedule, i, r.idx, k))
      && (r.Removed? ==> Took(s, schedule, t, k))
    case _ => true
  }

  ghost predicate InsideSoFar(s: State, schedule: seq<(nat, Action)>, t: nat, k: Key, v: Value, m: State, i: nat) {
    && IsReal(m.subMaps, i) && t < |m.subMaps[i].arr.threads|
    && SubSoFar(s, schedule, t, i, m.subMaps[i].cfg, k, v, m.subMaps[i].arr.threads[t])
  }

  /** A call of `start` can be at `l`. */
  predicate Belongs(start: Action, l: Local) {
    match l
    case Idle => false
    case InsertStart(k, v) => start == StartInsert(k, v)
    case InsertLoad(k, v, _, _) => start == StartInsert(k, v)
    case InsertAt(k, v, _, _, _) => start == StartInsert(k, v)
    case TryLockMap(k, v, _) => start == StartInsert(k, v)
    case CreateMap(k, v, _) => start == StartInsert(k, v)
    case Publish(k, v, _) => start == StartInsert(k, v)
    case SpinMap(k, v, _) => start == StartInsert(k, v)
    case LoadLast(k, v, _) => start == StartInsert(k, v)
    case FindLoad(k, _, _) => start == StartFind(k)
    case FindAt(k, _, _) => start == StartFind(k)
    case FindNum(k) => start == StartFind(k)
    case EraseStart(k) => start == StartErase(k)
    case EraseLoad(k, _, _) => start == StartErase(k)
    case EraseAt(k, _, _) => start == StartErase(k)
    case Done(k, r) =>
      && !start.Go? && k == start.k && (r.Missing? ==> start.StartFind?)
      && (r.NotRemoved? ==> start.StartErase?) && (r.Threw? ==> start.StartInsert?)
  }

  predicate Positive(r: Result) { !r.Missing? && !r.NotRemoved? && !r.Threw? }

  /** What the run has shown by the time the call is where `m` has it, negative answers
      aside. */
  ghost predicate SoFar(s: State, schedule: seq<(nat, Action)>, t: nat, start: Action, m: State) {
    && t < |m.threads| && !start.Go? && Belongs(start, m.threads[t])
    && (InsideOf(m.threads[t]).Some? ==>
          InsideSoFar(s, schedule, t, start.k, ValueOf(start), m, InsideOf(m.threads[t]).value))
    && (m.threads[t].Done? && Positive(m.threads[t].result) ==> Right(s, schedule, t, start, m.threads[t].result))
  }

  /** A longer run has shown as much. */
  lemma SawMore(s: State, less: seq<(nat, Action)>, schedule: seq<(nat, Action)>, t: nat, i: nat, c: nat, k: Key,
                v: Value)
    requires less <= schedule
    ensures SawAt(s, less, i, c, k) ==> SawAt(s, schedule, i, c, k)
    ensures Added(s, less, t, i, c, k, v) ==> Added(s, schedule, t, i, c, k, v)
  {
    hide Run, InMap, HoldsAt, HoldsPair;
    if SawAt(s, less, i, c, k) {
      var n :| 0 <= n <= |less| && HoldsAt(Run(s, less[..n]), i, c, k);
      assert less[..n] == schedule[..n];
    }
    if Added(s, less, t, i, c, k, v) {
      var n: nat :| AddsAt(s, less, t, i, c, k, v, n);
      assert less[..n] == schedule[..n] && less[..n + 1] == schedule[..n + 1];
      assert AddsAt(s, schedule, t, i, c, k, v, n);
    }
  }

  lemma TookMore(s: State, less: seq<(nat, Action)>, schedule: seq<(nat, Action)>, t: nat, k: Key)
    requires less <= schedule
    ensures Took(s, less, t, k) ==> Took(s, schedule, t, k)
    ensures SawFull(s, less, k) ==> SawFull(s, schedule, k)
  {
    hide Run, InMap, FullFor;
    if Took(s, less, t, k) {
      var n: nat :| TakesAt(s, less, t, k, n);
      assert less[..n] == schedule[..n] && less[..n + 1] == schedule[..n + 1];
      assert TakesAt(s, schedule, t, k, n);
    }
    if SawFull(s, less, k) {
      var n :| 0 <= n <= |less| && FullFor(Run(s, less[..n]), k);
      assert less[..n] == schedule[..n];
    }
  }

  lemma SubSoFarMore(s: State, less: seq<(nat, Action)>, schedule: seq<(nat, Action)>, t: nat, i: nat,
                     cfg: HashArray.Config, k: Key, v: Value, q: HashArray.Local)
    requires less <= schedule && SubSoFar(s, less, t, i, cfg, k, v, q)
    ensures SubSoFar(s, schedule, t, i, cfg, k, v, q)
  {
    hide Added, Took, SawAt, HashArray.Path;
    TookMore(s, less, schedule, t, k);
    match q {
      case Ins(_, _, _, j) =>
        if j < cfg.cap {
          SawMore(s, less, schedule, t, i, HashArray.Path(cfg, k, j), k, v);
        }
      case Done(_, r) =>
        SawMore(s, less, schedule, t, i, if r.Inserted? || r.Existing? || r.Found? then r.idx else 0, k, v);
      case _ =>
    }
  }

  lemma JustifiedMore(s: State, less: seq<(nat, Action)>, schedule: seq<(nat, Action)>, t: nat, start: Action,
                      r: Result)
    requires less <= schedule && !start.Go? && Positive(r) && Right(s, less, t, start, r)
    ensures Right(s, schedule, t, start, r)
  {
    hide Added, Took, SawAt, SawFull;
    TookMore(s, less, schedule, t, start.k);
    if r.At? {
      SawMore(s, less, schedule, t, r.i, r.idx, start.k, ValueOf(start));
    }
  }

  lemma LastStates(s: State, less: seq<(nat, Action)>, schedule: seq<(nat, Action)>, t: nat, a: Action)
    requires schedule == less + [(t, a)]
    ensures schedule[..|less|] == less && schedule[..|less| + 1] == schedule && less <= schedule
    ensures Run(s, schedule) == Exec(Run(s, less), t, a)
  {
    assert schedule[..|schedule| - 1] == less;
  }

  /** A step of another thread. */
  lemma OtherStep(s: State, less: seq<(nat, Action)>, schedule: seq<(nat, Action)>, t: nat, start: Action, m: State,
                  u: nat, a: Action)
    requires less <= schedule && Inv(m) && SoFar(s, less, t, start, m) && u != t
    ensures SoFar(s, schedule, t, start, Exec(m, u, a))
  {
    hide Inv, Exec, SubSoFar, Right;
    UndisturbedThread(m, t, u, a);
    var l := m.threads[t];
    if InsideOf(l).Some? {
      var i := InsideOf(l).value;
      UndisturbedInside(m, t, u, a, i);
      SameConfig(m, u, a, i);
      SubSoFarMore(s, less, schedule, t, i, m.subMaps[i].cfg, start.k, ValueOf(start), m.subMaps[i].arr.threads[t]);
    }
    if l.Done? && Positive(l.result) {
      JustifiedMore(s, less, schedule, t, start, l.result);
    }
  }

  lemma SameConfig(m: State, u: nat, a: Action, i: nat)
    requires Inv(m) && IsReal(m.subMaps, i)
    ensures IsReal(Exec(m, u, a).subMaps, i) && Exec(m, u, a).subMaps[i].cfg == m.subMaps[i].cfg
  {
    if u < |m.threads| {
      NotLockedHere(m, u, i);
    }
    StepOfSubMap(m, u, a, i);
    hide HashArray.Exec, Exec, Inv;
  }

  /** The call's own step, outside the sub-maps or into one. */
  lemma OutsideStep(s: State, less: seq<(nat, Action)>, schedule: seq<(nat, Action)>, t: nat, start: Action, a: Action)
    requires schedule == less + [(t, a)] && a.Go? && Inv(Run(s, less)) && SoFar(s, less, t, start, Run(s, less))
    requires InsideOf(Run(s, less).threads[t]).None? && !Run(s, less).threads[t].Done?
    ensures SoFar(s, schedule, t, start, Run(s, schedule))
  {
    var m := Run(s, less);
    LastStates(s, less, schedule, t, a);
    hide Run;
    OutsideMoves(m, t, start, a);
    var m' := Exec(m, t, a);
    hide Exec, Inv, Added, Took, SawAt, FullFor;
    if m'.threads[t].Done? && m'.threads[t].result.MapFull? {
      assert SawFull(s, schedule, start.k);
    }
  }

  predicate Fresh(q: HashArray.Local) {
    (q.Ins? && q.pc.LoadCell?) || q.Find? || q.Erase?
  }

  predicate FreshInside(m: State, t: nat, i: nat) {
    IsReal(m.subMaps, i) && t < |m.subMaps[i].arr.threads| && Fresh(m.subMaps[i].arr.threads[t])
  }

  lemma EntersFresh(m: State, t: nat, i: nat, b: HashArray.Action, inside: Local)
    requires Inv(m) && t < |m.threads| && IsReal(m.subMaps, i) && InsideOf(m.threads[t]).None? && !b.Go?
    ensures var m' := EnterSub(m, t, i, b, inside);
      |m'.threads| == |m.threads| && m'.threads[t] == inside && FreshInside(m', t, i)
  {
    SubLive(m, t, i);
    HashArray.StartsCall(m.subMaps[i].cfg, m.subMaps[i].arr, t, b);
    hide HashArray.Exec, Inv, HashArray.Inv;
  }

  /** What the heads of the loops rely on. */
  lemma OutsideFacts(m: State, t: nat)
    requires Inv(m) && t < |m.threads|
    ensures match m.threads[t]
            case InsertLoad(k, _, i, next) =>
              if i < next then IsReal(m.subMaps, i)
              else Placed(m.subMaps, 1, k) && (next >= NUM_SUB_MAPS ==> Placed(m.subMaps, NUM_SUB_MAPS, k))
            case LoadLast(_, _, next) => IsReal(m.subMaps, next)
            case FindLoad(_, i, num) => i == 0 || i < num ==> IsReal(m.subMaps, i)
            case EraseLoad(_, i, num) => i < num ==> IsReal(m.subMaps, i)
            case _ => true
  {
    InvThread(m, t);
    hide Inv, ArrayOk, SubAt;
  }

  /** Where such a step may lead. */
  predicate Moved(m: State, m': State, t: nat, start: Action) {
    && t < |m'.threads| && !start.Go? && Belongs(start, m'.threads[t])
    && (m'.threads[t].Done? ==>
          m'.threads[t].result.Missing? || m'.threads[t].result.NotRemoved? ||
          (m'.threads[t].result.MapFull? && FullFor(m, start.k)))
    && (InsideOf(m'.threads[t]).Some? ==> FreshInside(m', t, InsideOf(m'.threads[t]).value))
  }

  lemma InsertLoadMoves(m: State, t: nat, start: Action, a: Action)
    requires Inv(m) && t < |m.threads| && a.Go? && Belongs(start, m.threads[t]) && m.threads[t].InsertLoad?
    ensures Moved(m, Exec(m, t, a), t, start)
  {
    OutsideFacts(m, t);
    var l := m.threads[t];
    if l.i < l.next {
      EntersFresh(m, t, l.i, HashArray.StartInsert(l.key, l.value), InsertAt(l.key, l.value, l.i, l.next, false));
    }
    hide Inv, EnterSub, StepSub, FreshInside, IsReal, Placed;
  }

  lemma LoadLastMoves(m: State, t: nat, start: Action, a: Action)
    requires Inv(m) && t < |m.threads| && a.Go? && Belongs(start, m.threads[t]) && m.threads[t].LoadLast?
    ensures Moved(m, Exec(m, t, a), t, start)
  {
    OutsideFacts(m, t);
    var l := m.threads[t];
    EntersFresh(m, t, l.next, HashArray.StartInsert(l.key, l.value), InsertAt(l.key, l.value, l.next, l.next, true));
    hide Inv, EnterSub, StepSub, FreshInside, IsReal, Placed;
  }

  lemma FindLoadMoves(m: State, t: nat, start: Action, a: Action)
    requires Inv(m) && t < |m.threads| && a.Go? && Belongs(start, m.threads[t]) && m.threads[t].FindLoad?
    ensures Moved(m, Exec(m, t, a), t, start)
  {
    OutsideFacts(m, t);
    var l := m.threads[t];
    if l.i == 0 || l.i < l.num {
      EntersFresh(m, t, l.i, HashArray.StartFind(l.key), FindAt(l.key, l.i, l.num));
    }
    hide Inv, EnterSub, StepSub, FreshInside, IsReal, Placed;
  }

  lemma EraseLoadMoves(m: State, t: nat, start: Action, a: Action)
    requires Inv(m) && t < |m.threads| && a.Go? && Belongs(start, m.threads[t]) && m.threads[t].EraseLoad?
    ensures Moved(m, Exec(m, t, a), t, start)
  {
    OutsideFacts(m, t);
    var l := m.threads[t];
    if l.i < l.num {
      EntersFresh(m, t, l.i, HashArray.StartErase(l.key), EraseAt(l.key, l.i, l.num));
    }
    hide Inv, EnterSub, StepSub, FreshInside, IsReal, Placed;
  }

  lemma OutsideMoves(m: State, t: nat, start: Action, a: Action)
    requires Inv(m) && t < |m.threads| && a.Go? && Belongs(start, m.threads[t])
    requires InsideOf(m.threads[t]).None? && !m.threads[t].Done?
    ensures Moved(m, Exec(m, t, a), t, start)
  {
    var l := m.threads[t];
    if l.InsertLoad? {
      InsertLoadMoves(m, t, start, a);
    } else if l.LoadLast? {
      LoadLastMoves(m, t, start, a);
    } else if l.FindLoad? {
      FindLoadMoves(m, t, start, a);
    } else if l.EraseLoad? {
      EraseLoadMoves(m, t, start, a);
    } else {
      hide Inv, EnterSub, StepSub, FreshInside, IsReal, Placed;
    }
  }

  // ----- Inside a sub-map -----

  /** The step inside sub-map `i` that puts `k` there finds it nowhere in the map. */
  lemma AddedIsNew(m: State, t: nat, a: Action, i: nat, c: nat, k: Key)
    requires Inv(m) && IsReal(m.subMaps, i) && HashArray.Absent(m.subMaps[i].arr.cells, k)
    requires HoldsAt(Exec(m, t, a), i, c, k)
    ensures !InMap(m, k)
  {
    hide Inv, Exec, HashArray.Absent;
    var m' := Exec(m, t, a);
    HeldIsThere(m'.subMaps[i], c, k);
    if InMap(m, k) {
      var h :| 0 <= h < |m.subMaps| && HasKey(m.subMaps[h], k);
      KeyStaysHome(m, t, a, h, i, k);
    }
  }

  lemma HeldIsThere(m: SubMap, c: nat, k: Key)
    requires m.Real? && A.HoldsAt(m.arr.cells, c, k)
    ensures HasKey(m, k)
  {
  }

  /** The step inside sub-map `i` that takes `k` out of it takes it out of the map. */
  lemma TakenIsGone(m: State, t: nat, a: Action, i: nat, k: Key)
    requires Inv(m) && IsReal(m.subMaps, i) && !HashArray.Absent(m.subMaps[i].arr.cells, k)
    requires IsReal(Exec(m, t, a).subMaps, i) && HashArray.Absent(Exec(m, t, a).subMaps[i].arr.cells, k)
    ensures InMap(m, k) && !InMap(Exec(m, t, a), k)
  {
    hide Inv, Exec, HashArray.Absent;
    var m' := Exec(m, t, a);
    assert HasKey(m.subMaps[i], k);
    if InMap(m', k) {
      var h :| 0 <= h < |m'.subMaps| && HasKey(m'.subMaps[h], k);
      KeyStaysHome(m, t, a, i, h, k);
    }
  }

  /** What a step inside a sub-map does to the array and the thread's place in it. */
  lemma InsideMoves(m: State, t: nat, a: Action, i: nat)
    requires Inv(m) && t < |m.threads| && a.Go? && InsideOf(m.threads[t]) == Some(i) && IsReal(m.subMaps, i)
    requires Answer(m, t, i).None?
    ensures HashArray.Inv(m.subMaps[i].cfg, m.subMaps[i].arr) && t < |m.subMaps[i].arr.threads|
    ensures SubLocal(m.threads[t], m.subMaps[i].arr.threads[t]) && !m.subMaps[i].arr.threads[t].Done?
    ensures var m' := Exec(m, t, a); var sub := m.subMaps[i];
      && m'.threads == m.threads && IsReal(m'.subMaps, i)
      && m'.subMaps == m.subMaps[i := sub.(arr := HashArray.Exec(sub.cfg, sub.arr, t, HashArray.Go(a.throws, a.mark)))]
  {
    SubLive(m, t, i);
    hide Inv, HashArray.Inv, HashArray.Exec, EnterSub;
  }

  lemma InsertInside(s: State, less: seq<(nat, Action)>, schedule: seq<(nat, Action)>, t: nat, k: Key, v: Value,
                     a: Action, i: nat)
    requires schedule == less + [(t, a)] && a.Go? && Inv(Run(s, less)) && t < |Run(s, less).threads|
    requires var m := Run(s, less);
      && InsideOf(m.threads[t]) == Some(i) && m.threads[t].InsertAt? && m.threads[t].key == k && m.threads[t].value == v
      && InsideSoFar(s, less, t, k, v, m, i) && Answer(m, t, i).None?
    ensures InsideSoFar(s, schedule, t, k, v, Run(s, schedule), i)
  {
    hide Exec, HashArray.Exec, HashArray.Inv, HashArray.Path, HashArray.Absent, Inv, InMap, HoldsAt, HoldsPair;
    var m, m' := Run(s, less), Run(s, schedule);
    LastStates(s, less, schedule, t, a);
    hide Run;
    InsideMoves(m, t, a, i);
    var sub, b := m.subMaps[i], HashArray.Go(a.throws, a.mark);
    var q, q' := sub.arr.threads[t], m'.subMaps[i].arr.threads;
    A.InsertMoves(sub.cfg, sub.arr, t, b);
    var c := HashArray.Path(sub.cfg, k, q.j);
    SawMore(s, less, schedule, t, i, c, k, v);
    if q.pc.Build? && !a.throws {
      A.BuildMoves(sub.cfg, sub.arr, t, b);
      BuiltInside(s, less, schedule, t, k, v, a, i, c);
    }
    if q'[t].Done? && q'[t].result.Existing? {
      ExistingInside(s, less, schedule, i, q'[t].result.idx, k);
    }
    hide Added, Took, SawAt;
  }

  lemma ExistingInside(s: State, less: seq<(nat, Action)>, schedule: seq<(nat, Action)>, i: nat, c: nat, k: Key)
    requires less <= schedule && IsReal(Run(s, less).subMaps, i) && A.HoldsAt(Run(s, less).subMaps[i].arr.cells, c, k)
    ensures SawAt(s, schedule, i, c, k)
  {
    assert schedule[..|less|] == less;
  }

  lemma BuiltInside(s: State, less: seq<(nat, Action)>, schedule: seq<(nat, Action)>, t: nat, k: Key, v: Value,
                    a: Action, i: nat, c: nat)
    requires schedule == less + [(t, a)] && Inv(Run(s, less)) && IsReal(Run(s, less).subMaps, i)
    requires IsReal(Run(s, schedule).subMaps, i)
    requires HashArray.Absent(Run(s, less).subMaps[i].arr.cells, k)
    requires A.HoldsPair(Run(s, schedule).subMaps[i].arr.cells, c, k, v)
    ensures Added(s, schedule, t, i, c, k, v)
  {
    LastStates(s, less, schedule, t, a);
    AddedIsNew(Run(s, less), t, a, i, c, k);
    assert AddsAt(s, schedule, t, i, c, k, v, |less|);
  }

  lemma SearchInside(s: State, less: seq<(nat, Action)>, schedule: seq<(nat, Action)>, t: nat, k: Key, v: Value,
                     a: Action, i: nat)
    requires schedule == less + [(t, a)] && a.Go? && Inv(Run(s, less)) && t < |Run(s, less).threads|
    requires var m := Run(s, less);
      && InsideOf(m.threads[t]) == Some(i) && !m.threads[t].InsertAt? && m.threads[t].key == k
      && InsideSoFar(s, less, t, k, v, m, i) && Answer(m, t, i).None?
    ensures InsideSoFar(s, schedule, t, k, v, Run(s, schedule), i)
  {
    hide Exec, HashArray.Exec, HashArray.Inv, HashArray.Path, HashArray.Absent, Inv, InMap, HoldsAt, HoldsPair;
    var m, m' := Run(s, less), Run(s, schedule);
    LastStates(s, less, schedule, t, a);
    hide Run;
    InsideMoves(m, t, a, i);
    var sub, b := m.subMaps[i], HashArray.Go(a.throws, a.mark);
    A.SearchMoves(sub.cfg, sub.arr, t, b);
    var q' := m'.subMaps[i].arr.threads;
    if q'[t].Done? && q'[t].result.Found? {
      ExistingInside(s, less, schedule, i, q'[t].result.idx, k);
    }
    if q'[t].Done? && q'[t].result.Removed? {
      TakenIsGone(m, t, a, i, k);
      assert TakesAt(s, schedule, t, k, |less|);
    }
    hide Added, Took, SawAt;
  }

  /** The sub-map's answer becomes the call's. */
  lemma AnswerStep(s: State, schedule: seq<(nat, Action)>, t: nat, start: Action, m: State, a: Action, i: nat)
    requires Inv(m) && SoFar(s, schedule, t, start, m) && a.Go? && InsideOf(m.threads[t]) == Some(i)
    requires Answer(m, t, i).Some?
    ensures SoFar(s, schedule, t, start, Exec(m, t, a))
  {
    SubLive(m, t, i);
    hide Inv, HashArray.Inv, HashArray.Exec, Added, Took, SawAt, EnterSub;
  }

  lemma OwnStep(s: State, less: seq<(nat, Action)>, schedule: seq<(nat, Action)>, t: nat, start: Action, a: Action)
    requires schedule == less + [(t, a)] && a.Go? && Inv(Run(s, less)) && SoFar(s, less, t, start, Run(s, less))
    ensures SoFar(s, schedule, t, start, Run(s, schedule))
  {
    var m, m' := Run(s, less), Run(s, schedule);
    LastStates(s, less, schedule, t, a);
    hide Run, Inv, Right, SubSoFar, InsideSoFar;
    var l := m.threads[t];
    if InsideOf(l).Some? {
      var i := InsideOf(l).value;
      InsideIsReal(s, less, t, start, m, i);
      if Answer(m, t, i).Some? {
        SoFarMore(s, less, schedule, t, start, m);
        AnswerStep(s, schedule, t, start, m, a, i);
      } else {
        InsideMoves(m, t, a, i);
        if l.InsertAt? {
          InsertInside(s, less, schedule, t, start.k, start.v, a, i);
        } else {
          SearchInside(s, less, schedule, t, start.k, ValueOf(start), a, i);
        }
      }
    } else if l.Done? {
      SoFarMore(s, less, schedule, t, start, m);
      assert m' == m;
    } else {
      OutsideStep(s, less, schedule, t, start, a);
    }
  }

  lemma InsideIsReal(s: State, less: seq<(nat, Action)>, t: nat, start: Action, m: State, i: nat)
    requires SoFar(s, less, t, start, m) && InsideOf(m.threads[t]) == Some(i)
    ensures IsReal(m.subMaps, i)
  {
  }

  lemma SoFarMore(s: State, less: seq<(nat, Action)>, schedule: seq<(nat, Action)>, t: nat, start: Action, m: State)
    requires less <= schedule && SoFar(s, less, t, start, m)
    ensures SoFar(s, schedule, t, start, m)
  {
    hide SubSoFar, Right;
    var l := m.threads[t];
    if InsideOf(l).Some? {
      var i := InsideOf(l).value;
      SubSoFarMore(s, less, schedule, t, i, m.subMaps[i].cfg, start.k, ValueOf(start), m.subMaps[i].arr.threads[t]);
    }
    if l.Done? && Positive(l.result) {
      JustifiedMore(s, less, schedule, t, start, l.result);
    }
  }

  lemma CallBefore(schedule: seq<(nat, Action)>, t: nat, start: Action)
    requires IsCall(schedule, t, start) && |schedule| > 1
    ensures IsCall(schedule[..|schedule| - 1], t, start)
    ensures schedule[|schedule| - 1].0 == t ==> schedule[|schedule| - 1].1.Go?
  {
    var n := |schedule| - 1;
    assert schedule[..n][1..] == schedule[1..][..n - 1] && schedule[n] == schedule[1..][n - 1];
  }

  lemma {:induction false} CallSoFar(s: State, t: nat, start: Action, schedule: seq<(nat, Action)>)
    requires Inv(s) && t < |s.threads| && (s.threads[t].Idle? || s.threads[t].Done?) && IsCall(schedule, t, start)
    ensures Inv(Run(s, schedule)) && SoFar(s, schedule, t, start, Run(s, schedule))
    decreases |schedule|
  {
    hide Inv, ExecGo, SubSoFar, Right;
    var n := |schedule| - 1;
    var less, last := schedule[..n], schedule[n];
    assert schedule == less + [last];
    RunInv(s, schedule);
    LastStates(s, less, schedule, last.0, last.1);
    if n == 0 {
      assert Run(s, less) == s;
    } else {
      hide Exec, SoFar;
      CallBefore(schedule, t, start);
      hide IsCall;
      CallSoFar(s, t, start, less);
      if last.0 == t {
        OwnStep(s, less, schedule, t, start, last.1);
      } else {
        OtherStep(s, less, schedule, t, start, Run(s, less), last.0, last.1);
      }
    }
  }

  // ----- The negative answers -----

  /** If the key was never missing, it was there all through the call. */
  lemma PresentAfterStart(s: State, t: nat, start: Action, schedule: seq<(nat, Action)>, k: Key)
    requires IsCall(schedule, t, start) && !SawAbsent(s, schedule, k)
    ensures Run(s, schedule) == Run(Exec(s, t, start), schedule[1..])
    ensures PresentThroughout(Exec(s, t, start), schedule[1..], k) && InMap(Exec(s, t, start), k)
  {
    hide Exec, InMap;
    var one, more := schedule[..1], schedule[1..];
    assert one[..0] == [] && Run(s, one[..0]) == s && Run(s, one) == Exec(s, t, start);
    assert schedule == one + more;
    RunAppend(s, one, more);
    forall i | 0 <= i < |more|
      ensures InMap(Run(Exec(s, t, start), more[..i]), k)
    {
      RunAppend(s, one, more[..i]);
      assert schedule[..i + 1] == one + more[..i];
    }
  }

  lemma MissSawAbsent(s: State, t: nat, start: Action, schedule: seq<(nat, Action)>)
    requires Inv(s) && t < |s.threads| && (s.threads[t].Idle? || s.threads[t].Done?) && IsCall(schedule, t, start)
    requires var s' := Run(s, schedule);
      t < |s'.threads| && s'.threads[t].Done? &&
      ((start.StartFind? && s'.threads[t].result.Missing?) || (start.StartErase? && s'.threads[t].result.NotRemoved?))
    ensures SawAbsent(s, schedule, start.k)
  {
    hide Inv, ExecGo, Run, SawAbsent, HasKey;
    if !SawAbsent(s, schedule, start.k) {
      PresentAfterStart(s, t, start, schedule, start.k);
      ExecInv(s, t, start);
      var s1 := Exec(s, t, start);
      var home :| 0 <= home < |s1.subMaps| && HasKey(s1.subMaps[home], start.k);
      if start.StartFind? {
        FindNeverMisses(s1, t, start.k, schedule[1..], home);
      } else {
        EraseNeverMisses(s1, t, start.k, schedule[1..], home);
      }
    }
  }

  // ----- What a call does not change -----

  /** The call of `t` has not changed whether its key is in the map, so far. */
  predicate Quiet(m: State, t: nat, start: Action) {
    && t < |m.threads|
    && var l := m.threads[t];
       if InsideOf(l).Some? then
         && IsReal(m.subMaps, InsideOf(l).value) && t < |m.subMaps[InsideOf(l).value].arr.threads|
         && var q := m.subMaps[InsideOf(l).value].arr.threads[t];
            !(q.Ins? && A.Built(q.pc)) && !(q.Done? && (q.result.Inserted? || q.result.Removed?))
       else !(l.Done? && Changes(start, l.result))
  }

  /** Its constructor has thrown. */
  predicate Throwing(m: State, t: nat) {
    && t < |m.threads|
    && var l := m.threads[t];
       if InsideOf(l).Some? then
         && IsReal(m.subMaps, InsideOf(l).value) && t < |m.subMaps[InsideOf(l).value].arr.threads|
         && var q := m.subMaps[InsideOf(l).value].arr.threads[t];
            (q.Ins? && q.pc.ThrownDown?) || (q.Done? && q.result.Threw?)
       else l.Done? && l.result.Threw?
  }

  ghost predicate QuietPart(s: State, schedule: seq<(nat, Action)>, t: nat, start: Action, m: State)
    requires !start.Go?
  {
    && (Quiet(m, t, start) ==> ChangedNothing(s, schedule, t, start.k))
    && (Throwing(m, t) ==> ThrewIn(s, schedule, t))
  }

  /** A step of `t`, and where `t` is before and after. */
  predicate QuietStep(m: State, m': State, t: nat, a: Action, start: Action)
    requires !start.Go?
  {
    && (Quiet(m', t, start) ==> Quiet(m, t, start) && (InMap(m', start.k) <==> InMap(m, start.k)))
    && (Throwing(m', t) ==> Throwing(m, t) || ThrowsNow(m, t, a))
  }

  lemma SubMapKeeps(subMaps: seq<SubMap>, i: nat, sub: SubMap, k: Key, s: State, s': State)
    requires i < |subMaps| && s.subMaps == subMaps && s'.subMaps == subMaps[i := sub]
    requires HasKey(sub, k) <==> HasKey(subMaps[i], k)
    ensures InMap(s', k) <==> InMap(s, k)
  {
    hide HasKey;
    if InMap(s', k) {
      var h :| 0 <= h < |s'.subMaps| && HasKey(s'.subMaps[h], k);
      assert HasKey(s.subMaps[h], k);
    }
    if InMap(s, k) {
      var h :| 0 <= h < |s.subMaps| && HasKey(s.subMaps[h], k);
      assert HasKey(s'.subMaps[h], k);
    }
  }

  lemma InsertIsQuiet(m: State, t: nat, start: Action, a: Action, i: nat)
    requires Inv(m) && t < |m.threads| && a.Go? && m.threads[t].InsertAt? && InsideOf(m.threads[t]) == Some(i)
    requires !start.Go? && start.k == m.threads[t].key && IsReal(m.subMaps, i) && Answer(m, t, i).None?
    ensures QuietStep(m, Exec(m, t, a), t, a, start)
  {
    InsideMoves(m, t, a, i);
    var sub, b, k := m.subMaps[i], HashArray.Go(a.throws, a.mark), m.threads[t].key;
    var q := sub.arr.threads[t];
    A.InsertMoves(sub.cfg, sub.arr, t, b);
    if !A.Built(q.pc) && !(q.pc.Build? && !a.throws) {
      HashArray.OtherStepsKeepKeys(sub.cfg, sub.arr, t, b, k);
      hide HashArray.Exec, HashArray.Inv, HashArray.Absent, Inv, Exec;
      SubMapKeeps(m.subMaps, i, Exec(m, t, a).subMaps[i], k, m, Exec(m, t, a));
    }
    hide HashArray.Exec, HashArray.Inv, HashArray.Absent, Inv, Exec, InMap;
  }

  lemma SearchIsQuiet(m: State, t: nat, start: Action, a: Action, i: nat)
    requires Inv(m) && t < |m.threads| && a.Go? && !m.threads[t].InsertAt? && InsideOf(m.threads[t]) == Some(i)
    requires !start.Go? && start.k == m.threads[t].key && IsReal(m.subMaps, i) && Answer(m, t, i).None?
    ensures QuietStep(m, Exec(m, t, a), t, a, start)
  {
    InsideMoves(m, t, a, i);
    var sub, b, k := m.subMaps[i], HashArray.Go(a.throws, a.mark), m.threads[t].key;
    A.SearchMoves(sub.cfg, sub.arr, t, b);
    hide HashArray.Exec, HashArray.Inv, HashArray.Absent, Inv, Exec;
    var m' := Exec(m, t, a);
    var q' := m'.subMaps[i].arr.threads;
    if !(q'[t].Done? && q'[t].result.Removed?) {
      SubMapKeeps(m.subMaps, i, m'.subMaps[i], k, m, m');
    }
    hide InMap;
  }

  lemma AnswerIsQuiet(m: State, t: nat, start: Action, a: Action, i: nat)
    requires Inv(m) && t < |m.threads| && a.Go? && InsideOf(m.threads[t]) == Some(i) && Belongs(start, m.threads[t])
    requires IsReal(m.subMaps, i) && Answer(m, t, i).Some?
    ensures QuietStep(m, Exec(m, t, a), t, a, start)
  {
    SubLive(m, t, i);
    hide Inv, HashArray.Inv, HashArray.Exec, EnterSub, HasKey;
  }

  /** Outside the sub-maps a step changes the keys of none of them. */
  lemma OutsideIsQuiet(m: State, t: nat, a: Action, k: Key)
    requires Inv(m) && t < |m.threads| && a.Go? && InsideOf(m.threads[t]).None?
    ensures InMap(Exec(m, t, a), k) <==> InMap(m, k)
  {
    var m' := Exec(m, t, a);
    SettingsStay(m, t, a);
    forall h | 0 <= h < |m.subMaps| ensures HasKey(m'.subMaps[h], k) <==> HasKey(m.subMaps[h], k) {
      OnlyInside(m, t, a, h, k);
    }
    hide Exec, HasKey, Inv;
    if InMap(m', k) {
      var h :| 0 <= h < |m'.subMaps| && HasKey(m'.subMaps[h], k);
      assert HasKey(m.subMaps[h], k);
    }
    if InMap(m, k) {
      var h :| 0 <= h < |m.subMaps| && HasKey(m.subMaps[h], k);
      assert HasKey(m'.subMaps[h], k);
    }
  }

  lemma OnlyInside(m: State, t: nat, a: Action, h: nat, k: Key)
    requires Inv(m) && t < |m.threads| && a.Go? && InsideOf(m.threads[t]).None? && h < |m.subMaps|
    ensures h < |Exec(m, t, a).subMaps| && (HasKey(Exec(m, t, a).subMaps[h], k) <==> HasKey(m.subMaps[h], k))
  {
    SettingsStay(m, t, a);
    var sub, sub' := m.subMaps[h], Exec(m, t, a).subMaps[h];
    if sub.Real? {
      SubLive(m, t, h);
      NotLockedHere(m, t, h);
      StepOfSubMap(m, t, a, h);
      hide Exec, HashArray.Exec, HashArray.Inv, Inv, HashArray.Absent;
      if sub' != sub {
        var b :| SubStep(sub, sub', t, b);
        HashArray.OtherStepsKeepKeys(sub.cfg, sub.arr, t, b, k);
      }
    } else {
      hide HashArray.Exec, Inv, ConfigAt, CanGrow;
    }
  }

  lemma OwnStepIsQuiet(m: State, t: nat, start: Action, a: Action)
    requires Inv(m) && t < |m.threads| && a.Go? && !start.Go? && Belongs(start, m.threads[t])
    requires InsideOf(m.threads[t]).Some? ==> IsReal(m.subMaps, InsideOf(m.threads[t]).value)
    ensures QuietStep(m, Exec(m, t, a), t, a, start)
  {
    var l := m.threads[t];
    if InsideOf(l).Some? {
      var i := InsideOf(l).value;
      if Answer(m, t, i).Some? {
        AnswerIsQuiet(m, t, start, a, i);
      } else if l.InsertAt? {
        InsertIsQuiet(m, t, start, a, i);
      } else {
        SearchIsQuiet(m, t, start, a, i);
      }
    } else if l.Done? {
      assert Exec(m, t, a) == m;
    } else {
      OutsideIsQuiet(m, t, a, start.k);
      OutsideMoves(m, t, start, a);
      hide Inv, Exec, InMap, FullFor;
    }
  }

  lemma ThrewMore(s: State, less: seq<(nat, Action)>, schedule: seq<(nat, Action)>, t: nat)
    requires less <= schedule
    ensures ThrewIn(s, less, t) ==> ThrewIn(s, schedule, t)
  {
    hide Run, ThrowsNow;
    if ThrewIn(s, less, t) {
      var n: nat :| ThrowsAt(s, less, t, n);
      assert less[..n] == schedule[..n];
      assert ThrowsAt(s, schedule, t, n);
    }
  }

  /** One more step that does not change whether `k` is there, or is not `t`'s. */
  lemma NothingMore(s: State, less: seq<(nat, Action)>, schedule: seq<(nat, Action)>, t: nat, k: Key, u: nat, a: Action)
    requires schedule == less + [(u, a)] && ChangedNothing(s, less, t, k)
    requires u == t ==> (InMap(Run(s, schedule), k) <==> InMap(Run(s, less), k))
    ensures ChangedNothing(s, schedule, t, k)
  {
    hide Run, InMap;
    forall n: nat | n < |schedule| && schedule[n].0 == t
      ensures InMap(Run(s, schedule[..n]), k) <==> InMap(Run(s, schedule[..n + 1]), k)
    {
      if n < |less| {
        assert less[..n] == schedule[..n] && less[..n + 1] == schedule[..n + 1] && less[n] == schedule[n];
      } else {
        assert schedule[..n] == less && schedule[..n + 1] == schedule;
      }
    }
  }

  lemma SameStanding(m: State, t: nat, u: nat, a: Action, start: Action)
    requires Inv(m) && t < |m.threads| && u != t
    ensures Quiet(Exec(m, u, a), t, start) ==> Quiet(m, t, start)
    ensures Throwing(Exec(m, u, a), t) ==> Throwing(m, t)
  {
    UndisturbedThread(m, t, u, a);
    InvThread(m, t);
    var l := m.threads[t];
    hide Inv, Exec, ArrayOk, SubAt;
    if InsideOf(l).Some? {
      UndisturbedInside(m, t, u, a, InsideOf(l).value);
    }
  }

  lemma {:induction false} QuietCall(s: State, t: nat, start: Action, schedule: seq<(nat, Action)>)
    requires Inv(s) && t < |s.threads| && (s.threads[t].Idle? || s.threads[t].Done?) && IsCall(schedule, t, start)
    ensures QuietPart(s, schedule, t, start, Run(s, schedule))
    decreases |schedule|
  {
    var n := |schedule| - 1;
    var less, last := schedule[..n], schedule[n];
    assert schedule == less + [last];
    LastStates(s, less, schedule, last.0, last.1);
    var m := Run(s, less);
    if n == 0 {
      assert m == s && ChangedNothing(s, less, t, start.k);
      StartsQuiet(s, t, start);
      NothingMore(s, less, schedule, t, start.k, t, start);
    } else {
      CallBefore(schedule, t, start);
      CallSoFar(s, t, start, less);
      InsideExists(s, less, t, start, m);
      QuietCall(s, t, start, less);
      hide Run, Inv, Exec, InMap, Quiet, Throwing, ThrowsNow, ChangedNothing, SoFar, IsCall;
      ThrewMore(s, less, schedule, t);
      if last.0 == t {
        OwnStepIsQuiet(m, t, start, last.1);
        if ThrowsNow(m, t, last.1) {
          assert schedule[..n] == less;
          assert ThrowsAt(s, schedule, t, n);
        }
      } else {
        SameStanding(m, t, last.0, last.1, start);
      }
      if Quiet(Run(s, schedule), t, start) {
        NothingMore(s, less, schedule, t, start.k, last.0, last.1);
      }
    }
  }

  lemma StartsQuiet(s: State, t: nat, start: Action)
    requires t < |s.threads| && (s.threads[t].Idle? || s.threads[t].Done?) && !start.Go?
    ensures var s' := Exec(s, t, start); s'.subMaps == s.subMaps && !Throwing(s', t)
    ensures forall k :: InMap(Exec(s, t, start), k) <==> InMap(s, k)
  {
  }

  lemma InsideExists(s: State, schedule: seq<(nat, Action)>, t: nat, start: Action, m: State)
    requires SoFar(s, schedule, t, start, m)
    ensures t < |m.threads| && Belongs(start, m.threads[t])
    ensures InsideOf(m.threads[t]).Some? ==> IsReal(m.subMaps, InsideOf(m.threads[t]).value)
  {
  }

  // ----- All answers -----

  /** Every answer was right at an instant of its call: what an insert reports as new it
      put into that cell of that sub-map, with the value given, when the key was nowhere in
      the map; what it reports as old and what a find reports was in that cell; what an erase
      reports as removed it took out of the map; a key that was not found or not removed was
      nowhere in the map; a full map was full for that key; an insert that threw did so in its
      constructor; and only the first and the third changed whether the key is in the map. */
  lemma {:induction false} AnswerIsJustified(s: State, t: nat, start: Action, schedule: seq<(nat, Action)>)
    requires Inv(s) && t < |s.threads| && (s.threads[t].Idle? || s.threads[t].Done?) && IsCall(schedule, t, start)
    ensures var s' := Run(s, schedule);
      && t < |s'.threads|
      && (s'.threads[t].Done? ==>
            s'.threads[t].key == start.k && Justified(s, schedule, t, start, s'.threads[t].result))
  {
    hide Inv, Exec, Added, Took, SawAt, SawAbsent, SawFull, Run, InsideSoFar, ThrewIn, ChangedNothing;
    CallSoFar(s, t, start, schedule);
    QuietCall(s, t, start, schedule);
    var s' := Run(s, schedule);
    if s'.threads[t].Done? {
      var r := s'.threads[t].result;
      if r.Missing? || r.NotRemoved? {
        MissSawAbsent(s, t, start, schedule);
      }
    }
  }

  // ----- Where values come from -----

  predicate Inserting(s: State, u: nat, k: Key, v: Value) {
    u < |s.threads| && !s.threads[u].Done? && Belongs(StartInsert(k, v), s.threads[u])
  }

  /** Thread `u` began insert(k, v) with step `m` and is in that call from there to state `p`. */
  ghost predicate Began(s: State, schedule: seq<(nat, Action)>, u: nat, k: Key, v: Value, m: nat, p: nat) {
    && m < p <= |schedule| && schedule[m] == (u, StartInsert(k, v))
    && forall n :: m < n <= p ==> Inserting(Run(s, schedule[..n]), u, k, v)
  }

  /** Step `p`, in the call that `u` began with step `m`, put `k` with value `v` into cell `c`
      of sub-map `i` when `k` was nowhere in the map, and the cell has held them ever since. */
  ghost predicate GivenBy(s: State, schedule: seq<(nat, Action)>, i: nat, c: nat, k: Key, v: Value,
                          u: nat, m: nat, p: nat) {
    && Began(s, schedule, u, k, v, m, p) && p < |schedule| && schedule[p].0 == u
    && !InMap(Run(s, schedule[..p]), k)
    && forall n :: p < n <= |schedule| ==> HoldsPair(Run(s, schedule[..n]), i, c, k, v)
  }

  ghost predicate WasStarted(s: State, schedule: seq<(nat, Action)>, u: nat, k: Key, v: Value) {
    exists m: nat :: Began(s, schedule, u, k, v, m, |schedule|)
  }

  ghost predicate WasGiven(s: State, schedule: seq<(nat, Action)>, i: nat, c: nat, k: Key, v: Value) {
    exists u: nat, m: nat, p: nat :: GivenBy(s, schedule, i, c, k, v, u, m, p)
  }

  lemma StartedMore(s: State, less: seq<(nat, Action)>, schedule: seq<(nat, Action)>, u: nat, k: Key, v: Value)
    requires less < schedule && |schedule| == |less| + 1
    requires WasStarted(s, less, u, k, v) && Inserting(Run(s, schedule), u, k, v)
    ensures WasStarted(s, schedule, u, k, v)
  {
    hide Run, Inserting;
    var m: nat :| Began(s, less, u, k, v, m, |less|);
    forall n | m < n <= |schedule|
      ensures Inserting(Run(s, schedule[..n]), u, k, v)
    {
      if n <= |less| {
        assert less[..n] == schedule[..n];
      } else {
        assert schedule[..n] == schedule;
      }
    }
    assert Began(s, schedule, u, k, v, m, |schedule|);
  }

  lemma StartsNow(s: State, less: seq<(nat, Action)>, schedule: seq<(nat, Action)>, u: nat, k: Key, v: Value)
    requires schedule == less + [(u, StartInsert(k, v))] && Inserting(Run(s, schedule), u, k, v)
    ensures WasStarted(s, schedule, u, k, v)
  {
    hide Run, Inserting;
    assert schedule[..|schedule|] == schedule;
    assert Began(s, schedule, u, k, v, |less|, |schedule|);
  }

  /** A thread is in an insert of `k` and `v` when it was before, or begins just that. */
  lemma SameInsert(m: State, u: nat, a: Action, k: Key, v: Value)
    requires Inserting(Exec(m, u, a), u, k, v)
    ensures Inserting(m, u, k, v) || a == StartInsert(k, v)
  {
    hide HashArray.Exec, ConfigAt, CanGrow;
  }

  lemma {:induction false} InsertWasStarted(given: Settings, n: nat, schedule: seq<(nat, Action)>, u: nat, k: Key,
                                            v: Value)
    requires ValidSettings(given) && Inserting(Run(Initial(given, n), schedule), u, k, v)
    ensures WasStarted(Initial(given, n), schedule, u, k, v)
    decreases |schedule|
  {
    hide Inv, Primary, ValidSettings;
    if |schedule| > 0 {
      hide Exec, WasStarted, Initial, Inserting;
      var s0 := Initial(given, n);
      var less, last := schedule[..|schedule| - 1], schedule[|schedule| - 1];
      assert schedule == less + [last];
      var m := Run(s0, less);
      LastStates(s0, less, schedule, last.0, last.1);
      if last.0 == u {
        SameInsert(m, u, last.1, k, v);
      } else {
        OtherInsert(m, u, last.0, last.1, k, v);
      }
      if Inserting(m, u, k, v) {
        InsertWasStarted(given, n, less, u, k, v);
        StartedMore(s0, less, schedule, u, k, v);
      } else {
        StartsNow(s0, less, schedule, u, k, v);
      }
    }
  }

  lemma OtherInsert(m: State, u: nat, t: nat, a: Action, k: Key, v: Value)
    requires t != u && Inserting(Exec(m, t, a), u, k, v)
    ensures Inserting(m, u, k, v)
  {
    SettingsStay(m, t, a);
    UndisturbedThread(m, u, t, a);
    hide Exec;
  }

  lemma GivenMore(s: State, less: seq<(nat, Action)>, schedule: seq<(nat, Action)>, i: nat, c: nat, k: Key, v: Value)
    requires less < schedule && |schedule| == |less| + 1
    requires WasGiven(s, less, i, c, k, v) && HoldsPair(Run(s, schedule), i, c, k, v)
    ensures WasGiven(s, schedule, i, c, k, v)
  {
    hide Run, Inserting, InMap, HoldsPair;
    var u: nat, m: nat, p: nat :| GivenBy(s, less, i, c, k, v, u, m, p);
    forall n | m < n <= p
      ensures Inserting(Run(s, schedule[..n]), u, k, v)
    {
      assert less[..n] == schedule[..n];
    }
    forall n | p < n <= |schedule|
      ensures HoldsPair(Run(s, schedule[..n]), i, c, k, v)
    {
      if n <= |less| {
        assert less[..n] == schedule[..n];
      } else {
        assert schedule[..n] == schedule;
      }
    }
    assert less[..p] == schedule[..p];
    assert GivenBy(s, schedule, i, c, k, v, u, m, p);
  }

  lemma GivenNow(s: State, less: seq<(nat, Action)>, schedule: seq<(nat, Action)>, i: nat, c: nat, k: Key, v: Value,
                 u: nat, a: Action)
    requires schedule == less + [(u, a)] && WasStarted(s, less, u, k, v)
    requires !InMap(Run(s, less), k) && HoldsPair(Run(s, schedule), i, c, k, v)
    ensures WasGiven(s, schedule, i, c, k, v)
  {
    hide Run, Inserting, InMap, HoldsPair;
    var m: nat :| Began(s, less, u, k, v, m, |less|);
    assert schedule[..|less|] == less && schedule[..|schedule|] == schedule;
    forall n | m < n <= |less|
      ensures Inserting(Run(s, schedule[..n]), u, k, v)
    {
      assert less[..n] == schedule[..n];
    }
    assert GivenBy(s, schedule, i, c, k, v, u, m, |less|);
  }

  predicate LiveAt(s: State, i: nat, c: nat) {
    IsReal(s.subMaps, i) && c < |s.subMaps[i].arr.cells| && s.subMaps[i].arr.cells[c].Real?
  }

  /** What a step does to a cell that is live after it: nothing, or it is the step of an
      insert that puts its own key and value there, the key being nowhere in the map. */
  lemma LiveStep(m: State, t: nat, a: Action, i: nat, c: nat)
    requires Inv(m) && LiveAt(Exec(m, t, a), i, c)
    ensures var cell := Exec(m, t, a).subMaps[i].arr.cells[c];
      if LiveAt(m, i, c) then HoldsPair(m, i, c, cell.key, cell.value)
      else Inserting(m, t, cell.key, cell.value) && !InMap(m, cell.key)
  {
    SettingsStay(m, t, a);
    var sub, sub' := m.subMaps[i], Exec(m, t, a).subMaps[i];
    if sub.Real? {
      SubArray(m, t, a, i);
      hide Exec, HashArray.Exec, HashArray.Inv, Inv, InMap;
      if sub' != sub {
        var b :| SubStep(sub, sub', t, b);
        HashArray.KeepsCellCount(sub.cfg, sub.arr, t, b);
        if LiveAt(m, i, c) {
          HashArray.CellsLater(sub.cfg, sub.arr, t, b, c);
        } else {
          FilledInside(m, t, a, i, c, b);
        }
      }
    } else {
      hide HashArray.Exec, Inv, ConfigAt, CanGrow;
    }
  }

  lemma SubArray(m: State, t: nat, a: Action, i: nat)
    requires Inv(m) && IsReal(m.subMaps, i)
    ensures HashArray.Inv(m.subMaps[i].cfg, m.subMaps[i].arr) && |m.subMaps[i].arr.cells| == m.subMaps[i].cfg.cap
    ensures i < |Exec(m, t, a).subMaps|
    ensures var sub, sub' := m.subMaps[i], Exec(m, t, a).subMaps[i];
      sub' != sub ==> exists b :: SubStep(sub, sub', t, b)
  {
    assert ArrayOk(m.subMaps[i], |m.threads|);
    SettingsStay(m, t, a);
    if t < |m.threads| {
      NotLockedHere(m, t, i);
    }
    StepOfSubMap(m, t, a, i);
    hide Exec, HashArray.Exec;
  }

  lemma FilledInside(m: State, t: nat, a: Action, i: nat, c: nat, b: HashArray.Action)
    requires Inv(m) && IsReal(m.subMaps, i) && LiveAt(Exec(m, t, a), i, c) && !LiveAt(m, i, c)
    requires SubStep(m.subMaps[i], Exec(m, t, a).subMaps[i], t, b)
    ensures var cell := Exec(m, t, a).subMaps[i].arr.cells[c];
      Inserting(m, t, cell.key, cell.value) && !InMap(m, cell.key)
  {
    var sub, m' := m.subMaps[i], Exec(m, t, a);
    assert ArrayOk(sub, |m.threads|);
    HashArray.KeepsCellCount(sub.cfg, sub.arr, t, b);
    A.OnlyBuildFills(sub.cfg, sub.arr, t, b, c);
    A.BuildMoves(sub.cfg, sub.arr, t, b);
    assert SubAt(sub, t, i, m.threads[t]);
    hide Exec, HashArray.Exec, HashArray.Inv, HashArray.Absent, InMap;
    AddedIsNew(m, t, a, i, c, m'.subMaps[i].arr.cells[c].key);
    hide Inv;
  }

  /** In every run, whatever a cell of a sub-map holds was given to it by a call: some thread
      began an insert of just that key and value, put them there when the key was nowhere in
      the map, and the cell has held them since. So an answer that names a cell names the value
      of the insert that added the key. */
  lemma {:induction false} ValueWasGiven(given: Settings, n: nat, schedule: seq<(nat, Action)>, i: nat, c: nat)
    requires ValidSettings(given)
    ensures var s := Run(Initial(given, n), schedule);
      LiveAt(s, i, c) ==>
        var cell := s.subMaps[i].arr.cells[c]; WasGiven(Initial(given, n), schedule, i, c, cell.key, cell.value)
    decreases |schedule|
  {
    if |schedule| == 0 {
      hide Primary;
    } else {
      hide Inv, Exec, WasGiven, WasStarted, Initial, ValidSettings, Inserting, InMap;
      var s0 := Initial(given, n);
      var less, last := schedule[..|schedule| - 1], schedule[|schedule| - 1];
      assert schedule == less + [last];
      ValueWasGiven(given, n, less, i, c);
      InitialInv(given, n);
      RunInv(s0, less);
      var m, m' := Run(s0, less), Run(s0, schedule);
      LastStates(s0, less, schedule, last.0, last.1);
      if LiveAt(m', i, c) {
        LiveStep(m, last.0, last.1, i, c);
        var cell := m'.subMaps[i].arr.cells[c];
        if LiveAt(m, i, c) {
          GivenMore(s0, less, schedule, i, c, cell.key, cell.value);
        } else {
          InsertWasStarted(given, n, less, last.0, cell.key, cell.value);
          GivenNow(s0, less, schedule, i, c, cell.key, cell.value, last.0, last.1);
        }
      }
    }
  }

  /** At an instant of `call`, which follows `before`, cell `c` of sub-map `i` held `k` with a
      value that the insert that added it was given. */
  ghost predicate NamesGiven(given: Settings, n: nat, before: seq<(nat, Action)>, call: seq<(nat, Action)>,
                             i: nat, c: nat, k: Key)
  {
    exists p: nat, v :: p <= |call| && WasGiven(Initial(given, n), before + call[..p], i, c, k, v)
  }

  /** A find's hit and an insert's refusal lead to the value of the insert that added the key. */
  lemma {:induction false} AnswerNamesGiven(given: Settings, n: nat, before: seq<(nat, Action)>, t: nat, start: Action,
                         call: seq<(nat, Action)>)
    requires ValidSettings(given) && IsCall(call, t, start)
    requires var s := Run(Initial(given, n), before); t < |s.threads| && (s.threads[t].Idle? || s.threads[t].Done?)
    ensures var s' := Run(Initial(given, n), before + call);
      && t < |s'.threads|
      && (s'.threads[t].Done? && s'.threads[t].result.At? && !Changes(start, s'.threads[t].result) ==>
            NamesGiven(given, n, before, call, s'.threads[t].result.i, s'.threads[t].result.idx, start.k))
  {
    hide Inv, Exec, WasGiven, ChangedNothing, Initial, ValidSettings, Added;
    var s0 := Initial(given, n);
    var s, s' := Run(s0, before), Run(s0, before + call);
    InitialInv(given, n);
    RunInv(s0, before);
    RunAppend(s0, before, call);
    AnswerIsJustified(s, t, start, call);
    hide Run;
    if s'.threads[t].Done? && s'.threads[t].result.At? && !Changes(start, s'.threads[t].result) {
      var r := s'.threads[t].result;
      var p :| 0 <= p <= |call| && HoldsAt(Run(s, call[..p]), r.i, r.idx, start.k);
      RunAppend(s0, before, call[..p]);
      ValueWasGiven(given, n, before + call[..p], r.i, r.idx);
    }
  }

  // ----- When a key is refused -----

  /** A cell of sub-map `i` gets a key. */
  predicate FillsIn(m: State, m': State, i: nat) {
    IsReal(m.subMaps, i) && IsReal(m'.subMaps, i) && A.Fills(m.subMaps[i].arr.cells, m'.subMaps[i].arr.cells)
  }

  /** How often a key was put into sub-map `i` in a run. */
  function Additions(s: State, schedule: seq<(nat, Action)>, i: nat): nat {
    if |schedule| == 0 then 0
    else
      var less := schedule[..|schedule| - 1];
      Additions(s, less, i) + (if FillsIn(Run(s, less), Run(s, schedule), i) then 1 else 0)
  }

  /** Every addition to sub-map `i` is counted, sooner or later, and it is closed no sooner
      than it is meant to be. */
  ghost predicate Counts(sub: SubMap, additions: nat) {
    if sub.Real? then
      && A.ClosedLate(sub.cfg, sub.arr) && sub.arr.entries + Count(sub.arr.threads, A.Uncounted) == additions
    else additions == 0
  }

  lemma NewCounts(cfg: HashArray.Config, n: nat, t: nat)
    ensures Counts(Real(cfg, HashArray.Initial(cfg, n), t), 0)
  {
    CountNone(HashArray.Initial(cfg, n).threads, A.Uncounted);
  }

  lemma CountsStep(m: State, t: nat, a: Action, i: nat, additions: nat)
    requires Inv(m) && i < |m.subMaps| && Counts(m.subMaps[i], additions)
    ensures i < |Exec(m, t, a).subMaps|
    ensures Counts(Exec(m, t, a).subMaps[i], additions + (if FillsIn(m, Exec(m, t, a), i) then 1 else 0))
  {
    SettingsStay(m, t, a);
    var sub, sub' := m.subMaps[i], Exec(m, t, a).subMaps[i];
    if sub.Real? {
      SubArray(m, t, a, i);
      hide Exec, HashArray.Exec, HashArray.Inv, Inv, A.ClosedLate, A.Fills, A.Puts, Count;
      if sub' != sub {
        var b :| SubStep(sub, sub', t, b);
        A.ClosedStep(sub.cfg, sub.arr, t, b);
        A.CountStep(sub.cfg, sub.arr, t, b);
        A.PutsFills(sub.cfg, sub.arr, t, b);
      } else {
        NoFill(sub.arr.cells);
      }
    } else {
      StaysOrNew(m, t, a, i);
      if sub'.Real? {
        NewCounts(sub'.cfg, |m.threads|, sub'.creator);
      }
      hide Exec, HashArray.Exec, Inv;
    }
  }

  lemma NoFill(cells: seq<HashArray.Cell>)
    ensures !A.Fills(cells, cells)
  {
  }

  lemma StaysOrNew(m: State, t: nat, a: Action, i: nat)
    requires i < |m.subMaps| && !m.subMaps[i].Real?
    ensures i < |Exec(m, t, a).subMaps|
    ensures var sub' := Exec(m, t, a).subMaps[i];
      sub'.Real? ==> sub'.arr == HashArray.Initial(sub'.cfg, |m.threads|)
  {
    hide HashArray.Exec, ConfigAt, CanGrow;
  }

  lemma {:induction false} AdditionsAreCounted(given: Settings, n: nat, schedule: seq<(nat, Action)>, i: nat)
    requires ValidSettings(given) && i < NUM_SUB_MAPS
    ensures var s := Run(Initial(given, n), schedule);
      Inv(s) && i < |s.subMaps| && Counts(s.subMaps[i], Additions(Initial(given, n), schedule, i))
    decreases |schedule|
  {
    var s0 := Initial(given, n);
    InitialInv(given, n);
    RunInv(s0, schedule);
    hide Inv, Primary, ValidSettings, Counts;
    if |schedule| > 0 {
      hide Exec, Initial, FillsIn;
      var less, last := schedule[..|schedule| - 1], schedule[|schedule| - 1];
      AdditionsAreCounted(given, n, less, i);
      CountsStep(Run(s0, less), last.0, last.1, i, Additions(s0, less, i));
    } else {
      NewCounts(Primary(given), n, 0);
      NullCounts();
    }
  }

  lemma NullCounts()
    ensures Counts(Null, 0)
  {
  }

  /** In every run a sub-map has refused a key only because every cell on its way there holds
      another key or an erased one, or because at least as many keys were put into it as it is
      meant for. With `Justified` this is what a full map comes to. */
  lemma {:induction false} RefusedOnlyWhenFull(given: Settings, n: nat, schedule: seq<(nat, Action)>, i: nat, k: Key)
    requires ValidSettings(given) && i < NUM_SUB_MAPS
    ensures var s := Run(Initial(given, n), schedule);
      && |s.subMaps| == NUM_SUB_MAPS
      && (s.subMaps[i].Real? && k in s.subMaps[i].arr.fullKeys ==>
            var sub := s.subMaps[i];
            && |sub.arr.cells| == sub.cfg.cap
            && (HashArray.Prefix(sub.cfg, sub.arr.cells, k, sub.cfg.cap)
                || Additions(Initial(given, n), schedule, i) >= sub.cfg.maxEntries))
  {
    AdditionsAreCounted(given, n, schedule, i);
    var s := Run(Initial(given, n), schedule);
    hide Run, Additions;
    if s.subMaps[i].Real? && k in s.subMaps[i].arr.fullKeys {
      var sub := s.subMaps[i];
      assert ArrayOk(sub, |s.threads|);
      assert HashArray.Blocked(sub.cfg, sub.arr.cells, sub.arr.frozen, k);
    }
  }

  // ----- How long a call has run -----

  /** The steps that `t` has taken. */
  function Steps(schedule: seq<(nat, Action)>, t: nat): nat {
    if |schedule| == 0 then 0
    else Steps(schedule[..|schedule| - 1], t) + (if schedule[|schedule| - 1].0 == t then 1 else 0)
  }

  lemma {:induction false} StepsAppend(x: seq<(nat, Action)>, y: seq<(nat, Action)>, t: nat)
    ensures Steps(x + y, t) == Steps(x, t) + Steps(y, t)
    decreases |y|
  {
    if |y| == 0 {
      assert x + y == x;
    } else {
      StepsAppend(x, y[..|y| - 1], t);
      assert (x + y)[..|x + y| - 1] == x + y[..|y| - 1];
    }
  }
}
