/** The growing hash map of folly (libs/folly/folly/AtomicHashMap-inl.h:106-319): up to
    sixteen sub-maps, each one an array of module HashArray. A step of a thread is one
    access to the map's own words, or one step of its call inside a sub-map. */
module HashMap {
  import opened Common
  import opened HashMapSizes
  import HashArray

  type Key = HashArray.Key
  type Value = HashArray.Value

  const NUM_SUB_MAPS := 16

  /** A sub-map pointer: null, the mark of the thread that is creating the sub-map, or
      an array; `creator` is history. */
  datatype SubMap =
    | Null
    | LockedPtr(creator: nat)
    | Real(cfg: HashArray.Config, arr: HashArray.State, creator: nat)

  datatype Result =
    | At(i: nat, idx: nat, success: bool)
    | Missing
    | Removed
    | NotRemoved
    | MapFull
    | Threw

  /** `next` and `num` are a thread's own copies of numMapsAllocated_. `InsertLoad`,
      `FindLoad` and `EraseLoad` are the heads of the loops over sub-maps; `InsertAt`,
      `FindAt` and `EraseAt` are calls inside sub-map `i`, for an insert with `last`
      when it is the one that follows the growth of the map. */
  datatype Local =
    | Idle
    | InsertStart(key: Key, value: Value)
    | InsertLoad(key: Key, value: Value, i: nat, next: nat)
    | InsertAt(key: Key, value: Value, i: nat, next: nat, last: bool)
    | TryLockMap(key: Key, value: Value, next: nat)
    | CreateMap(key: Key, value: Value, next: nat)
    | Publish(key: Key, value: Value, next: nat)
    | SpinMap(key: Key, value: Value, next: nat)
    | LoadLast(key: Key, value: Value, next: nat)
    | FindLoad(key: Key, i: nat, num: nat)
    | FindAt(key: Key, i: nat, num: nat)
    | FindNum(key: Key)
    | EraseStart(key: Key)
    | EraseLoad(key: Key, i: nat, num: nat)
    | EraseAt(key: Key, i: nat, num: nat)
    | Done(key: Key, result: Result)

  datatype State = State(subMaps: seq<SubMap>, num: nat, threads: seq<Local>, given: Settings)

  function Initial(given: Settings, n: nat): State {
    var cfg := Primary(given);
    State([Real(cfg, HashArray.Initial(cfg, n), 0)] + seq(NUM_SUB_MAPS - 1, _ => Null), 1, seq(n, _ => Idle), given)
  }

  datatype Action =
    | StartInsert(k: Key, v: Value)
    | StartFind(k: Key)
    | StartErase(k: Key)
    | Go(throws: bool, mark: bool)

  // ----- Steps -----

  predicate IsReal(subMaps: seq<SubMap>, i: nat) { i < |subMaps| && subMaps[i].Real? }

  /** One step of thread `t` inside sub-map `i`. */
  function Inside(s: State, t: nat, i: nat, a: HashArray.Action): seq<SubMap>
    requires IsReal(s.subMaps, i)
  {
    var m := s.subMaps[i];
    s.subMaps[i := m.(arr := HashArray.Exec(m.cfg, m.arr, t, a))]
  }

  /** What sub-map `i` answered thread `t`, if its call there is over. */
  function Answer(s: State, t: nat, i: nat): Option<HashArray.Result> {
    if IsReal(s.subMaps, i) && t < |s.subMaps[i].arr.threads| && s.subMaps[i].arr.threads[t].Done?
    then Some(s.subMaps[i].arr.threads[t].result) else None
  }

  /** Where a call goes when sub-map `i` has answered. */
  function AfterAnswer(l: Local, r: HashArray.Result): Local
    requires l.InsertAt? || l.FindAt? || l.EraseAt?
  {
    match l
    case InsertAt(k, v, i, next, last) =>
      (match r
       case Inserted(idx) => Done(k, At(i, idx, true))
       case Existing(idx) => Done(k, At(i, idx, false))
       case Threw => Done(k, Threw)
       case _ => if last then InsertStart(k, v) else InsertLoad(k, v, i + 1, next))
    case FindAt(k, i, num) =>
      if r.Found? then Done(k, At(i, r.idx, true)) else if i == 0 then FindNum(k) else FindLoad(k, i + 1, num)
    case EraseAt(k, i, num) =>
      if r.Removed? then Done(k, Removed) else EraseLoad(k, i + 1, num)
  }

  function Exec(s: State, t: nat, a: Action): State {
    if t >= |s.threads| then s
    else if !a.Go? then
      if s.threads[t].Idle? || s.threads[t].Done? then s.(threads := s.threads[t := Begin(a)]) else s
    else ExecGo(s, t, a)
  }

  function Begin(a: Action): Local
    requires !a.Go?
  {
    match a
    case StartInsert(k, v) => InsertStart(k, v)
    case StartFind(k) => FindLoad(k, 0, 0)
    case StartErase(k) => EraseStart(k)
  }

  function ExecGo(s: State, t: nat, a: Action): State
    requires t < |s.threads| && a.Go?
  {
    var l := s.threads[t];
    match l
    case InsertStart(k, v) => s.(threads := s.threads[t := InsertLoad(k, v, 0, s.num)])
    case InsertLoad(k, v, i, next) =>
      if i < next then EnterSub(s, t, i, HashArray.StartInsert(k, v), InsertAt(k, v, i, next, false))
      else if next >= NUM_SUB_MAPS || !CanGrow(s.given) then s.(threads := s.threads[t := Done(k, MapFull)])
      else s.(threads := s.threads[t := TryLockMap(k, v, next)])
    case TryLockMap(k, v, next) =>
      if next < |s.subMaps| && s.subMaps[next].Null? then
        s.(threads := s.threads[t := CreateMap(k, v, next)], subMaps := s.subMaps[next := LockedPtr(t)])
      else s.(threads := s.threads[t := SpinMap(k, v, next)])
    case CreateMap(k, v, next) =>
      var cfg := ConfigAt(s.given, next);
      if next < |s.subMaps| && cfg.cap > 0 then
        s.(threads := s.threads[t := Publish(k, v, next)],
           subMaps := s.subMaps[next := Real(cfg, HashArray.Initial(cfg, |s.threads|), t)])
      else s
    case Publish(k, v, next) => s.(threads := s.threads[t := LoadLast(k, v, next)], num := s.num + 1)
    case SpinMap(k, v, next) => if next >= s.num then s else s.(threads := s.threads[t := LoadLast(k, v, next)])
    case LoadLast(k, v, next) => EnterSub(s, t, next, HashArray.StartInsert(k, v), InsertAt(k, v, next, next, true))
    case FindLoad(k, i, num) =>
      if i == 0 || i < num then EnterSub(s, t, i, HashArray.StartFind(k), FindAt(k, i, num))
      else s.(threads := s.threads[t := Done(k, Missing)])
    case FindNum(k) => s.(threads := s.threads[t := FindLoad(k, 1, s.num)])
    case EraseStart(k) => s.(threads := s.threads[t := EraseLoad(k, 0, s.num)])
    case EraseLoad(k, i, num) =>
      if i < num then EnterSub(s, t, i, HashArray.StartErase(k), EraseAt(k, i, num))
      else s.(threads := s.threads[t := Done(k, NotRemoved)])
    case InsertAt(_, _, i, _, _) => StepSub(s, t, i, l, a)
    case FindAt(_, i, _) => StepSub(s, t, i, l, a)
    case EraseAt(_, i, _) => StepSub(s, t, i, l, a)
    case Idle => s
    case Done(_, _) => s
  }

  /** A call inside sub-map `i` begins. */
  function EnterSub(s: State, t: nat, i: nat, start: HashArray.Action, l: Local): State
    requires t < |s.threads|
  {
    if IsReal(s.subMaps, i) then s.(subMaps := Inside(s, t, i, start), threads := s.threads[t := l]) else s
  }

  /** It goes on, or its answer is looked at. */
  function StepSub(s: State, t: nat, i: nat, l: Local, a: Action): State
    requires t < |s.threads| && a.Go? && (l.InsertAt? || l.FindAt? || l.EraseAt?)
  {
    if !IsReal(s.subMaps, i) then s
    else
      match Answer(s, t, i)
      case Some(r) => s.(threads := s.threads[t := AfterAnswer(l, r)])
      case None => s.(subMaps := Inside(s, t, i, HashArray.Go(a.throws, a.mark)))
  }

  function Run(s: State, schedule: seq<(nat, Action)>): State {
    if |schedule| == 0 then s
    else
      var last := schedule[|schedule| - 1];
      Exec(Run(s, schedule[..|schedule| - 1]), last.0, last.1)
  }

  // ----- The invariant -----

  /** `k` was refused by every sub-map before `i`. */
  predicate Placed(subMaps: seq<SubMap>, i: nat, k: Key) {
    forall h :: 0 <= h < i ==> IsReal(subMaps, h) && k in subMaps[h].arr.fullKeys
  }

  predicate HasKey(m: SubMap, k: Key) { m.Real? && !HashArray.Absent(m.arr.cells, k) }

  /** Below `num` every sub-map is there, above it none is, and at `num` there may be
      one in the hands of a single thread. */
  predicate SlotAt(subMaps: seq<SubMap>, num: nat, threads: seq<Local>, i: nat)
    requires i < |subMaps|
  {
    if i < num then subMaps[i].Real?
    else if i > num then subMaps[i].Null?
    else
      match subMaps[i]
      case Null => true
      case LockedPtr(t) => t < |threads| && threads[t].CreateMap?
      case Real(_, _, t) => t < |threads| && threads[t].Publish?
  }

  predicate Slots(subMaps: seq<SubMap>, num: nat, threads: seq<Local>) {
    |subMaps| == NUM_SUB_MAPS && 1 <= num <= NUM_SUB_MAPS
    && forall i :: 0 <= i < |subMaps| ==> SlotAt(subMaps, num, threads, i)
  }

  ghost predicate ArrayOk(m: SubMap, n: nat) {
    m.Real? ==> HashArray.Inv(m.cfg, m.arr) && |m.arr.threads| == n
  }

  ghost predicate Arrays(subMaps: seq<SubMap>, n: nat) {
    forall i :: 0 <= i < |subMaps| ==> ArrayOk(subMaps[i], n)
  }

  /** A key is in a published sub-map, and was refused by all earlier ones. */
  ghost predicate Keys(subMaps: seq<SubMap>, num: nat) {
    forall i, k :: 0 <= i < |subMaps| && HasKey(subMaps[i], k) ==> i < num && Placed(subMaps, i, k)
  }

  /** Inside which sub-map a thread is. */
  function InsideOf(l: Local): Option<nat> {
    match l
    case InsertAt(_, _, i, _, _) => Some(i)
    case FindAt(_, i, _) => Some(i)
    case EraseAt(_, i, _) => Some(i)
    case _ => None
  }

  /** What a thread's local state in a sub-map may be. */
  predicate SubLocal(l: Local, q: HashArray.Local) {
    match l
    case InsertAt(k, v, _, _, _) =>
      (q.Ins? && q.key == k && q.value == v) ||
      (q.Done? && q.key == k && (q.result.Inserted? || q.result.Existing? || q.result.Full? || q.result.Threw?))
    case FindAt(k, _, _) =>
      (q.Find? && q.key == k) || (q.Done? && q.key == k && (q.result.Found? || q.result.NotFound?))
    case EraseAt(k, _, _) =>
      ((q.Erase? || q.EraseCas?) && q.key == k) ||
      (q.Done? && q.key == k && (q.result.Removed? || q.result.NotRemoved?))
    case _ => q.Idle? || q.Done?
  }

  predicate SubAt(m: SubMap, t: nat, i: nat, l: Local) {
    m.Real? && t < |m.arr.threads| ==>
      if InsideOf(l) == Some(i) then SubLocal(l, m.arr.threads[t]) else m.arr.threads[t].Idle? || m.arr.threads[t].Done?
  }

  predicate ThreadOk(subMaps: seq<SubMap>, num: nat, t: nat, l: Local) {
    match l
    case InsertLoad(k, _, i, next) => 1 <= next <= num && i <= next && Placed(subMaps, i, k)
    case InsertAt(k, _, i, next, last) =>
      i < num && (if last then i == next else i < next <= num) && Placed(subMaps, i, k)
    case TryLockMap(k, _, next) => 1 <= next <= num && next < NUM_SUB_MAPS && Placed(subMaps, next, k)
    case CreateMap(k, _, next) =>
      next == num < |subMaps| && subMaps[next] == LockedPtr(t) && Placed(subMaps, next, k)
    case Publish(k, _, next) =>
      next == num < |subMaps| && subMaps[next].Real? && subMaps[next].creator == t && Placed(subMaps, next, k)
    case SpinMap(k, _, next) => Placed(subMaps, next, k)
    case LoadLast(k, _, next) => next < num && Placed(subMaps, next, k)
    case FindLoad(_, i, m) => m <= num
    case FindAt(_, i, m) => i < num && m <= num
    case EraseLoad(_, i, m) => m <= num
    case EraseAt(_, i, m) => i < num && m <= num
    case _ => true
  }

  predicate Threads(subMaps: seq<SubMap>, num: nat, threads: seq<Local>) {
    forall t :: 0 <= t < |threads| ==> ThreadOk(subMaps, num, t, threads[t])
  }

  predicate Subs(subMaps: seq<SubMap>, threads: seq<Local>) {
    forall t, i :: 0 <= t < |threads| && 0 <= i < |subMaps| ==> SubAt(subMaps[i], t, i, threads[t])
  }

  ghost predicate Inv(s: State) {
    && Slots(s.subMaps, s.num, s.threads)
    && Arrays(s.subMaps, |s.threads|)
    && Keys(s.subMaps, s.num)
    && Threads(s.subMaps, s.num, s.threads)
    && Subs(s.subMaps, s.threads)
  }

  // ----- Changing one sub-map -----

  /** A sub-map only goes on: the same array, which never forgets a refusal. */
  predicate Later(m: SubMap, m': SubMap) {
    m.Real? ==> m'.Real? && m'.creator == m.creator && m.arr.fullKeys <= m'.arr.fullKeys
  }

  lemma PlacedKept(subMaps: seq<SubMap>, i: nat, m: SubMap, h: nat, k: Key)
    requires i < |subMaps| && Later(subMaps[i], m) && Placed(subMaps, h, k)
    ensures Placed(subMaps[i := m], h, k)
  {
    var subMaps' := subMaps[i := m];
    forall g | 0 <= g < h
      ensures IsReal(subMaps', g) && k in subMaps'[g].arr.fullKeys
    {
      assert IsReal(subMaps, g) && k in subMaps[g].arr.fullKeys;
    }
  }

  lemma ThreadKept(subMaps: seq<SubMap>, i: nat, m: SubMap, num: nat, u: nat, l: Local)
    requires i < |subMaps| && Later(subMaps[i], m) && ThreadOk(subMaps, num, u, l)
    requires l.CreateMap? ==> l.next != i
    ensures ThreadOk(subMaps[i := m], num, u, l)
  {
    hide Placed;
    match l {
      case InsertLoad(k, _, h, _) => PlacedKept(subMaps, i, m, h, k);
      case InsertAt(k, _, h, _, _) => PlacedKept(subMaps, i, m, h, k);
      case TryLockMap(k, _, h) => PlacedKept(subMaps, i, m, h, k);
      case CreateMap(k, _, h) => PlacedKept(subMaps, i, m, h, k);
      case Publish(k, _, h) => PlacedKept(subMaps, i, m, h, k);
      case SpinMap(k, _, h) => PlacedKept(subMaps, i, m, h, k);
      case LoadLast(k, _, h) => PlacedKept(subMaps, i, m, h, k);
      case _ =>
    }
  }

  lemma KeysKept(subMaps: seq<SubMap>, num: nat, i: nat, m: SubMap)
    requires i < |subMaps| && Later(subMaps[i], m) && Keys(subMaps, num)
    requires forall k :: HasKey(m, k) ==> HasKey(subMaps[i], k) || (i < num && Placed(subMaps, i, k))
    ensures Keys(subMaps[i := m], num)
  {
    hide Placed, HasKey, Later;
    var subMaps' := subMaps[i := m];
    forall h, k | 0 <= h < |subMaps'| && HasKey(subMaps'[h], k)
      ensures h < num && Placed(subMaps', h, k)
    {
      assert h < num && Placed(subMaps, h, k);
      PlacedKept(subMaps, i, m, h, k);
    }
  }

  predicate Growing(l: Local) { l.CreateMap? || l.Publish? }

  lemma SlotsKept(subMaps: seq<SubMap>, i: nat, m: SubMap, num: nat, threads: seq<Local>, t: nat, l: Local)
    requires Slots(subMaps, num, threads) && i < |subMaps| && subMaps[i].Real? && m.Real?
    requires m.creator == subMaps[i].creator
    requires t < |threads| && !Growing(threads[t])
    ensures Slots(subMaps[i := m], num, threads[t := l])
  {
    var subMaps', threads' := subMaps[i := m], threads[t := l];
    forall h | 0 <= h < |subMaps'|
      ensures SlotAt(subMaps', num, threads', h)
    {
      assert SlotAt(subMaps, num, threads, h);
    }
  }

  // ----- A thread moves on by itself -----

  lemma InvThread(s: State, t: nat)
    requires Inv(s) && t < |s.threads|
    ensures ThreadOk(s.subMaps, s.num, t, s.threads[t])
    ensures |s.subMaps| == NUM_SUB_MAPS && 1 <= s.num <= NUM_SUB_MAPS
    ensures forall i :: 0 <= i < s.num ==> IsReal(s.subMaps, i)
    ensures forall i :: 0 <= i < |s.subMaps| ==> ArrayOk(s.subMaps[i], |s.threads|)
    ensures forall i :: 0 <= i < |s.subMaps| ==> SubAt(s.subMaps[i], t, i, s.threads[t])
  {
    forall i | 0 <= i < s.num ensures IsReal(s.subMaps, i) {
      assert SlotAt(s.subMaps, s.num, s.threads, i);
    }
  }

  lemma QuietInv(s: State, t: nat, l: Local)
    requires Inv(s) && t < |s.threads| && !Growing(s.threads[t]) && !Growing(l)
    requires ThreadOk(s.subMaps, s.num, t, l)
    requires forall i :: 0 <= i < |s.subMaps| ==> SubAt(s.subMaps[i], t, i, l)
    ensures Inv(s.(threads := s.threads[t := l]))
  {
    hide ThreadOk, SubAt, ArrayOk, Keys;
    assert SlotAt(s.subMaps, s.num, s.threads, 0);
    SlotsKept(s.subMaps, 0, s.subMaps[0], s.num, s.threads, t, l);
    assert s.subMaps[0 := s.subMaps[0]] == s.subMaps;
  }

  // ----- A thread moves on inside a sub-map -----

  lemma SubsKept(s: State, t: nat, i: nat, m: SubMap, l: Local)
    requires Subs(s.subMaps, s.threads) && t < |s.threads| && i < |s.subMaps|
    requires forall u :: 0 <= u < |s.threads| && u != t ==> SubAt(m, u, i, s.threads[u])
    requires SubAt(m, t, i, l) && forall h :: 0 <= h < |s.subMaps| && h != i ==> SubAt(s.subMaps[h], t, h, l)
    ensures Subs(s.subMaps[i := m], s.threads[t := l])
  {
    hide SubAt;
  }

  lemma OthersInSub(s: State, t: nat, i: nat, a: HashArray.Action)
    requires Inv(s) && t < |s.threads| && IsReal(s.subMaps, i)
    ensures var m := s.subMaps[i].(arr := HashArray.Exec(s.subMaps[i].cfg, s.subMaps[i].arr, t, a));
      forall u :: 0 <= u < |s.threads| && u != t ==> SubAt(m, u, i, s.threads[u])
  {
    var m := s.subMaps[i].(arr := HashArray.Exec(s.subMaps[i].cfg, s.subMaps[i].arr, t, a));
    hide HashArray.Exec, HashArray.Inv;
    assert ArrayOk(s.subMaps[i], |s.threads|);
    forall u | 0 <= u < |s.threads| && u != t
      ensures SubAt(m, u, i, s.threads[u])
    {
      HashArray.OtherThreads(s.subMaps[i].cfg, s.subMaps[i].arr, u, t, a);
      assert SubAt(s.subMaps[i], u, i, s.threads[u]);
    }
  }

  /** Keys that the step brings into sub-map `i` were refused before it. */
  lemma KeysInSub(s: State, t: nat, i: nat, a: HashArray.Action)
    requires Inv(s) && t < |s.threads| && IsReal(s.subMaps, i)
    ensures var m := s.subMaps[i].(arr := HashArray.Exec(s.subMaps[i].cfg, s.subMaps[i].arr, t, a));
      forall k :: HasKey(m, k) ==> HasKey(s.subMaps[i], k) || (i < s.num && Placed(s.subMaps, i, k))
  {
    var m := s.subMaps[i].(arr := HashArray.Exec(s.subMaps[i].cfg, s.subMaps[i].arr, t, a));
    hide HashArray.Exec, HashArray.Inv, HashArray.Absent, Placed;
    assert ArrayOk(s.subMaps[i], |s.threads|);
    assert SubAt(s.subMaps[i], t, i, s.threads[t]);
    forall k | HasKey(m, k) && !HasKey(s.subMaps[i], k)
      ensures i < s.num && Placed(s.subMaps, i, k)
    {
      HashArray.OnlyInsertAdds(s.subMaps[i].cfg, s.subMaps[i].arr, t, a, k);
      assert ThreadOk(s.subMaps, s.num, t, s.threads[t]);
    }
  }

  lemma SubInv(s: State, t: nat, i: nat, a: HashArray.Action, l: Local)
    requires Inv(s) && t < |s.threads| && i < |s.subMaps| && IsReal(s.subMaps, i) && !Growing(s.threads[t])
    requires !Growing(l)
    requires ThreadOk(s.subMaps, s.num, t, l)
    requires SubAt(s.subMaps[i].(arr := HashArray.Exec(s.subMaps[i].cfg, s.subMaps[i].arr, t, a)), t, i, l)
    requires forall h :: 0 <= h < |s.subMaps| && h != i ==> SubAt(s.subMaps[h], t, h, l)
    ensures Inv(s.(subMaps := Inside(s, t, i, a), threads := s.threads[t := l]))
  {
    var m := s.subMaps[i].(arr := HashArray.Exec(s.subMaps[i].cfg, s.subMaps[i].arr, t, a));
    assert ArrayOk(s.subMaps[i], |s.threads|);
    SubArrayOk(s.subMaps[i], t, a, |s.threads|);
    OthersInSub(s, t, i, a);
    KeysInSub(s, t, i, a);
    hide HashArray.Exec, HashArray.Inv, SubAt, HasKey, Placed, ThreadOk, ArrayOk;
    SubsKept(s, t, i, m, l);
    KeysKept(s.subMaps, s.num, i, m);
    SlotsKept(s.subMaps, i, m, s.num, s.threads, t, l);
    var s' := s.(subMaps := Inside(s, t, i, a), threads := s.threads[t := l]);
    forall u | 0 <= u < |s'.threads|
      ensures ThreadOk(s'.subMaps, s'.num, u, s'.threads[u])
    {
      NotLockedHere(s, u, i);
      ThreadKept(s.subMaps, i, m, s.num, u, s'.threads[u]);
    }
  }

  lemma NotLockedHere(s: State, u: nat, i: nat)
    requires Inv(s) && u < |s.threads| && IsReal(s.subMaps, i)
    ensures s.threads[u].CreateMap? ==> s.threads[u].next != i
  {
    assert ThreadOk(s.subMaps, s.num, u, s.threads[u]);
  }

  lemma SubArrayOk(m: SubMap, t: nat, a: HashArray.Action, n: nat)
    requires m.Real? && ArrayOk(m, n) && t < n
    ensures ArrayOk(m.(arr := HashArray.Exec(m.cfg, m.arr, t, a)), n)
    ensures Later(m, m.(arr := HashArray.Exec(m.cfg, m.arr, t, a)))
  {
    hide HashArray.Exec, HashArray.Inv;
    HashArray.ExecInv(m.cfg, m.arr, t, a);
    HashArray.StepKeepsRefused(m.cfg, m.arr, t, a);
    HashArray.KeepsThreadCount(m.cfg, m.arr, t, a);
  }

  lemma SubLive(s: State, t: nat, i: nat)
    requires Inv(s) && t < |s.threads| && IsReal(s.subMaps, i)
    ensures HashArray.Inv(s.subMaps[i].cfg, s.subMaps[i].arr) && |s.subMaps[i].arr.threads| == |s.threads|
    ensures ArrayOk(s.subMaps[i], |s.threads|) && SubAt(s.subMaps[i], t, i, s.threads[t])
  {
    assert ArrayOk(s.subMaps[i], |s.threads|);
  }

  /** A call inside sub-map `i` begins. */
  lemma EnterInv(s: State, t: nat, i: nat, start: HashArray.Action, l: Local)
    requires Inv(s) && t < |s.threads| && IsReal(s.subMaps, i) && InsideOf(s.threads[t]).None? && !Growing(s.threads[t])
    requires ThreadOk(s.subMaps, s.num, t, l) && InsideOf(l) == Some(i)
    requires match l
             case InsertAt(k, v, _, _, _) => start == HashArray.StartInsert(k, v)
             case FindAt(k, _, _) => start == HashArray.StartFind(k)
             case EraseAt(k, _, _) => start == HashArray.StartErase(k)
             case _ => false
    ensures Inv(EnterSub(s, t, i, start, l))
  {
    hide HashArray.Exec, HashArray.Inv, ThreadOk, Inv, ArrayOk;
    InvThread(s, t);
    SubLive(s, t, i);
    HashArray.StartsCall(s.subMaps[i].cfg, s.subMaps[i].arr, t, start);
    SubInv(s, t, i, start, l);
  }

  lemma StepInsideInv(s: State, t: nat, i: nat, a: Action)
    requires Inv(s) && t < |s.threads| && InsideOf(s.threads[t]) == Some(i) && IsReal(s.subMaps, i) && a.Go?
    requires Answer(s, t, i).None?
    ensures Inv(StepSub(s, t, i, s.threads[t], a))
  {
    hide HashArray.Exec, HashArray.Inv, ThreadOk, Inv, ArrayOk;
    InvThread(s, t);
    SubLive(s, t, i);
    HashArray.CallGoesOn(s.subMaps[i].cfg, s.subMaps[i].arr, t, HashArray.Go(a.throws, a.mark));
    SubInv(s, t, i, HashArray.Go(a.throws, a.mark), s.threads[t]);
    assert s.threads[t := s.threads[t]] == s.threads;
  }

  /** A refusal by sub-map `i` joins those before. */
  lemma PlacedNext(s: State, t: nat, i: nat, k: Key)
    requires Inv(s) && t < |s.threads| && IsReal(s.subMaps, i) && Placed(s.subMaps, i, k)
    requires t < |s.subMaps[i].arr.threads| && s.subMaps[i].arr.threads[t] == HashArray.Done(k, HashArray.Full)
    ensures Placed(s.subMaps, i + 1, k)
  {
    SubLive(s, t, i);
    HashArray.FullMeansRefused(s.subMaps[i].cfg, s.subMaps[i].arr, t, k);
  }

  lemma AnswerInv(s: State, t: nat, i: nat, a: Action)
    requires Inv(s) && t < |s.threads| && InsideOf(s.threads[t]) == Some(i) && IsReal(s.subMaps, i) && a.Go?
    requires Answer(s, t, i).Some?
    ensures Inv(StepSub(s, t, i, s.threads[t], a))
  {
    hide HashArray.Exec, HashArray.Inv, Inv, ArrayOk, Placed;
    InvThread(s, t);
    SubLive(s, t, i);
    var l := s.threads[t];
    var r := Answer(s, t, i).value;
    if l.InsertAt? && r.Full? {
      PlacedNext(s, t, i, l.key);
    }
    QuietInv(s, t, AfterAnswer(l, r));
  }

  // ----- Growing the map -----

  /** A word that only thread `t` may change: nobody else is creating a sub-map. */
  lemma NobodyElse(s: State, t: nat, u: nat)
    requires Inv(s) && t < |s.threads| && u < |s.threads| && u != t && s.num < |s.subMaps|
    requires match s.subMaps[s.num] case Null => true case LockedPtr(c) => c == t case Real(_, _, c) => c == t
    ensures !Growing(s.threads[u])
  {
    assert ThreadOk(s.subMaps, s.num, u, s.threads[u]);
  }

  /** Slot `num` changes hands; `l` says who holds it now. */
  lemma SlotInv(s: State, t: nat, m: SubMap, l: Local)
    requires Inv(s) && t < |s.threads| && s.num < |s.subMaps| && !s.subMaps[s.num].Real? && InsideOf(s.threads[t]).None?
    requires s.subMaps[s.num].LockedPtr? ==> s.subMaps[s.num].creator == t
    requires InsideOf(l).None? && ThreadOk(s.subMaps[s.num := m], s.num, t, l)
    requires
      || (m == LockedPtr(t) && l.CreateMap?)
      || (m.Real? && l.Publish? && m.creator == t && ArrayOk(m, |s.threads|)
          && m.arr == HashArray.Initial(m.cfg, |s.threads|))
    ensures Inv(s.(threads := s.threads[t := l], subMaps := s.subMaps[s.num := m]))
  {
    var s' := s.(threads := s.threads[t := l], subMaps := s.subMaps[s.num := m]);
    KeysKept(s.subMaps, s.num, s.num, m);
    forall u | 0 <= u < |s'.threads|
      ensures ThreadOk(s'.subMaps, s'.num, u, s'.threads[u])
    {
      if u != t {
        NobodyElse(s, t, u);
        assert ThreadOk(s.subMaps, s.num, u, s.threads[u]);
        ThreadKept(s.subMaps, s.num, m, s.num, u, s.threads[u]);
      }
    }
    forall i | 0 <= i < |s'.subMaps|
      ensures SlotAt(s'.subMaps, s'.num, s'.threads, i)
    {
      assert SlotAt(s.subMaps, s.num, s.threads, i);
    }
    forall u, i | 0 <= u < |s'.threads| && 0 <= i < |s'.subMaps|
      ensures SubAt(s'.subMaps[i], u, i, s'.threads[u])
    {
      assert SubAt(s.subMaps[i], u, i, s.threads[u]);
    }
  }

  lemma TryLockInv(s: State, t: nat, a: Action)
    requires Inv(s) && t < |s.threads| && s.threads[t].TryLockMap? && a.Go?
    ensures Inv(ExecGo(s, t, a))
  {
    hide Placed, HashArray.Inv, Inv;
    InvThread(s, t);
    var l := s.threads[t];
    if s.subMaps[l.next].Null? {
      assert l.next == s.num by {
        assert l.next < s.num ==> IsReal(s.subMaps, l.next);
      }
      PlacedKept(s.subMaps, s.num, LockedPtr(t), l.next, l.key);
      SlotInv(s, t, LockedPtr(t), CreateMap(l.key, l.value, l.next));
    } else {
      QuietInv(s, t, SpinMap(l.key, l.value, l.next));
    }
  }

  lemma CreateInv(s: State, t: nat, a: Action)
    requires Inv(s) && t < |s.threads| && s.threads[t].CreateMap? && a.Go?
    ensures Inv(ExecGo(s, t, a))
  {
    hide Placed, HashArray.Inv, Inv;
    InvThread(s, t);
    var l := s.threads[t];
    var cfg := ConfigAt(s.given, l.next);
    hide ConfigAt;
    if cfg.cap > 0 {
      var m := Real(cfg, HashArray.Initial(cfg, |s.threads|), t);
      HashArray.InitialInv(cfg, |s.threads|);
      PlacedKept(s.subMaps, s.num, m, l.next, l.key);
      SlotInv(s, t, m, Publish(l.key, l.value, l.next));
    }
  }

  lemma PublishInv(s: State, t: nat, a: Action)
    requires Inv(s) && t < |s.threads| && s.threads[t].Publish? && a.Go?
    ensures Inv(ExecGo(s, t, a))
  {
    InvThread(s, t);
    hide Placed, HashArray.Inv, ArrayOk, Keys, SubAt;
    var l := s.threads[t];
    var s' := s.(threads := s.threads[t := LoadLast(l.key, l.value, l.next)], num := s.num + 1);
    assert ThreadOk(s'.subMaps, s'.num, t, s'.threads[t]);
    forall u | 0 <= u < |s'.threads| && u != t
      ensures ThreadOk(s'.subMaps, s'.num, u, s'.threads[u])
    {
      NobodyElse(s, t, u);
      assert ThreadOk(s.subMaps, s.num, u, s.threads[u]);
    }
    forall i | 0 <= i < |s'.subMaps|
      ensures SlotAt(s'.subMaps, s'.num, s'.threads, i)
    {
      assert SlotAt(s.subMaps, s.num, s.threads, i);
    }
    QuietSubs(s, t, LoadLast(l.key, l.value, l.next));
  }

  lemma QuietSubs(s: State, t: nat, l: Local)
    requires Inv(s) && t < |s.threads| && InsideOf(s.threads[t]).None? && InsideOf(l).None?
    ensures forall i :: 0 <= i < |s.subMaps| ==> SubAt(s.subMaps[i], t, i, l)
  {
    hide HashArray.Inv;
    InvThread(s, t);
  }

  /** Steps of an insert that change only the thread itself, or enter a sub-map. */
  lemma InsertGoInv(s: State, t: nat, a: Action)
    requires Inv(s) && t < |s.threads| && a.Go?
    requires var l := s.threads[t]; l.InsertStart? || l.InsertLoad? || l.SpinMap? || l.LoadLast?
    ensures Inv(ExecGo(s, t, a))
  {
    hide Inv, Placed, SubAt, ArrayOk, EnterSub, StepSub;
    InvThread(s, t);
    match s.threads[t] {
      case InsertStart(k, v) =>
        PlacedFirst(s.subMaps, k);
        MoveInv(s, t, InsertLoad(k, v, 0, s.num));
      case InsertLoad(k, v, i, next) =>
        if i < next {
          EnterInv(s, t, i, HashArray.StartInsert(k, v), InsertAt(k, v, i, next, false));
        } else {
          MoveInv(s, t, if next >= NUM_SUB_MAPS || !CanGrow(s.given) then Done(k, MapFull) else TryLockMap(k, v, next));
        }
      case SpinMap(k, v, next) =>
        if next < s.num {
          MoveInv(s, t, LoadLast(k, v, next));
        }
      case LoadLast(k, v, next) => EnterInv(s, t, next, HashArray.StartInsert(k, v), InsertAt(k, v, next, next, true));
    }
  }

  lemma SearchGoInv(s: State, t: nat, a: Action)
    requires Inv(s) && t < |s.threads| && a.Go?
    requires var l := s.threads[t]; l.FindLoad? || l.FindNum? || l.EraseStart? || l.EraseLoad?
    ensures Inv(ExecGo(s, t, a))
  {
    hide Inv, Placed, SubAt, ArrayOk, EnterSub, StepSub;
    InvThread(s, t);
    match s.threads[t] {
      case FindLoad(k, i, num) =>
        if i == 0 || i < num {
          EnterInv(s, t, i, HashArray.StartFind(k), FindAt(k, i, num));
        } else {
          MoveInv(s, t, Done(k, Missing));
        }
      case FindNum(k) => MoveInv(s, t, FindLoad(k, 1, s.num));
      case EraseStart(k) => MoveInv(s, t, EraseLoad(k, 0, s.num));
      case EraseLoad(k, i, num) =>
        if i < num {
          EnterInv(s, t, i, HashArray.StartErase(k), EraseAt(k, i, num));
        } else {
          MoveInv(s, t, Done(k, NotRemoved));
        }
    }
  }

  lemma MoveInv(s: State, t: nat, l: Local)
    requires Inv(s) && t < |s.threads| && InsideOf(s.threads[t]).None? && InsideOf(l).None?
    requires !Growing(s.threads[t]) && !Growing(l) && ThreadOk(s.subMaps, s.num, t, l)
    ensures Inv(s.(threads := s.threads[t := l]))
  {
    hide Inv, ThreadOk, SubAt;
    QuietSubs(s, t, l);
    QuietInv(s, t, l);
  }

  lemma ExecGoInv(s: State, t: nat, a: Action)
    requires Inv(s) && t < |s.threads| && a.Go?
    ensures Inv(ExecGo(s, t, a))
  {
    hide Inv, EnterSub, StepSub;
    InvThread(s, t);
    match s.threads[t] {
      case TryLockMap(_, _, _) => TryLockInv(s, t, a);
      case CreateMap(_, _, _) => CreateInv(s, t, a);
      case Publish(_, _, _) => PublishInv(s, t, a);
      case InsertAt(_, _, i, _, _) => InsideInv(s, t, i, a);
      case FindAt(_, i, _) => InsideInv(s, t, i, a);
      case EraseAt(_, i, _) => InsideInv(s, t, i, a);
      case Idle =>
      case Done(_, _) =>
      case FindLoad(_, _, _) => SearchGoInv(s, t, a);
      case FindNum(_) => SearchGoInv(s, t, a);
      case EraseStart(_) => SearchGoInv(s, t, a);
      case EraseLoad(_, _, _) => SearchGoInv(s, t, a);
      case _ => InsertGoInv(s, t, a);
    }
  }

  lemma PlacedFirst(subMaps: seq<SubMap>, k: Key)
    ensures Placed(subMaps, 0, k)
  {
  }

  lemma InsideInv(s: State, t: nat, i: nat, a: Action)
    requires Inv(s) && t < |s.threads| && InsideOf(s.threads[t]) == Some(i) && IsReal(s.subMaps, i) && a.Go?
    ensures Inv(StepSub(s, t, i, s.threads[t], a))
  {
    hide Inv, StepSub;
    if Answer(s, t, i).None? {
      StepInsideInv(s, t, i, a);
    } else {
      AnswerInv(s, t, i, a);
    }
  }

  lemma ExecInv(s: State, t: nat, a: Action)
    requires Inv(s)
    ensures Inv(Exec(s, t, a))
  {
    hide Inv, ExecGo;
    if t < |s.threads| {
      if a.Go? {
        ExecGoInv(s, t, a);
      } else if s.threads[t].Idle? || s.threads[t].Done? {
        InvThread(s, t);
        QuietSubs(s, t, Begin(a));
        QuietInv(s, t, Begin(a));
      }
    }
  }

  lemma InitialInv(given: Settings, n: nat)
    requires ValidSettings(given)
    ensures Inv(Initial(given, n))
  {
    PrimaryIsUsable(given);
    var cfg := Primary(given);
    hide Primary;
    HashArray.InitialInv(cfg, n);
    hide HashArray.Inv;
    var s := Initial(given, n);
    assert s.subMaps[0].arr == HashArray.Initial(cfg, n);
  }

  lemma {:induction false} RunInv(s: State, schedule: seq<(nat, Action)>)
    requires Inv(s)
    ensures Inv(Run(s, schedule))
  {
    if |schedule| > 0 {
      hide Inv, Exec;
      RunInv(s, schedule[..|schedule| - 1]);
      var last := schedule[|schedule| - 1];
      ExecInv(Run(s, schedule[..|schedule| - 1]), last.0, last.1);
    }
  }

  // ----- The theorems -----

  ghost predicate Reachable(s: State) {
    exists given, n: nat, schedule :: ValidSettings(given) && s == Run(Initial(given, n), schedule)
  }

  lemma ReachableInv(s: State)
    requires Reachable(s)
    ensures Inv(s)
  {
    var given, n: nat, schedule :| ValidSettings(given) && s == Run(Initial(given, n), schedule);
    InitialInv(given, n);
    RunInv(Initial(given, n), schedule);
  }

  /** Sub-maps below numMapsAllocated_ are there, those above are not, and the one at it
      is in the hands of one thread or of none. */
  lemma GrowthSafety(s: State)
    requires Reachable(s)
    ensures |s.subMaps| == NUM_SUB_MAPS && 1 <= s.num <= NUM_SUB_MAPS
    ensures forall i :: 0 <= i < s.num ==> s.subMaps[i].Real?
    ensures forall i :: s.num < i < NUM_SUB_MAPS ==> s.subMaps[i].Null?
    ensures forall t, u ::
      0 <= t < |s.threads| && 0 <= u < |s.threads| && Growing(s.threads[t]) && Growing(s.threads[u]) ==> t == u
    ensures forall t :: 0 <= t < |s.threads| && Growing(s.threads[t]) ==> s.threads[t].next == s.num
  {
    ReachableInv(s);
    forall i | 0 <= i < NUM_SUB_MAPS
      ensures (i < s.num ==> s.subMaps[i].Real?) && (i > s.num ==> s.subMaps[i].Null?)
    {
      assert SlotAt(s.subMaps, s.num, s.threads, i);
    }
    forall t, u | 0 <= t < |s.threads| && 0 <= u < |s.threads| && Growing(s.threads[t]) && Growing(s.threads[u])
      ensures t == u
    {
      assert ThreadOk(s.subMaps, s.num, t, s.threads[t]);
      assert ThreadOk(s.subMaps, s.num, u, s.threads[u]);
    }
    forall t | 0 <= t < |s.threads| && Growing(s.threads[t]) ensures s.threads[t].next == s.num {
      assert ThreadOk(s.subMaps, s.num, t, s.threads[t]);
    }
  }

  /** No other step touches a pointer. */
  lemma PointersKept(s: State, t: nat, a: Action, i: nat)
    requires i < |s.subMaps| && !(t < |s.threads| && (s.threads[t].TryLockMap? || s.threads[t].CreateMap?))
    ensures var s' := Exec(s, t, a);
      && |s'.subMaps| == |s.subMaps| && (!s.subMaps[i].Real? ==> s'.subMaps[i] == s.subMaps[i])
      && (s.subMaps[i].Real? ==> s'.subMaps[i].Real? && s'.subMaps[i].cfg == s.subMaps[i].cfg)
  {
    hide HashArray.Exec;
  }

  /** Each sub-map is created once: a step that changes what a pointer points to turns
      null into the thread's mark, or the thread's own mark into a new array. */
  lemma AllocatedOnce(s: State, t: nat, a: Action, i: nat)
    requires Reachable(s) && i < |s.subMaps|
    ensures var s' := Exec(s, t, a);
      && |s'.subMaps| == |s.subMaps|
      && (s.subMaps[i].Real? ==> s'.subMaps[i].Real? && s'.subMaps[i].cfg == s.subMaps[i].cfg)
      && (s'.subMaps[i].Real? && !s.subMaps[i].Real? ==> i == s.num && s.subMaps[i] == LockedPtr(t))
      && (s'.subMaps[i].LockedPtr? && !s.subMaps[i].LockedPtr? ==>
            i == s.num && s.subMaps[i].Null? && s'.subMaps[i].creator == t)
  {
    ReachableInv(s);
    hide HashArray.Exec, HashArray.Inv, Placed, Reachable;
    if t < |s.threads| && (s.threads[t].TryLockMap? || s.threads[t].CreateMap?) {
      InvThread(s, t);
      assert SlotAt(s.subMaps, s.num, s.threads, i);
    } else {
      PointersKept(s, t, a, i);
    }
  }

  /** A key is in at most one sub-map, whatever is inserted, erased and allocated. */
  lemma OneSubMapPerKey(s: State, i: nat, h: nat, k: Key)
    requires Reachable(s) && i < |s.subMaps| && h < |s.subMaps| && HasKey(s.subMaps[i], k) && HasKey(s.subMaps[h], k)
    ensures i == h
  {
    ReachableInv(s);
    InvOneHome(s, i, h, k);
  }

  lemma NotInEarlier(s: State, i: nat, k: Key)
    requires Inv(s) && i < |s.subMaps| && HasKey(s.subMaps[i], k)
    ensures forall h :: 0 <= h < i ==> !HasKey(s.subMaps[h], k)
  {
    assert Placed(s.subMaps, i, k);
    forall h | 0 <= h < i ensures !HasKey(s.subMaps[h], k) {
      assert IsReal(s.subMaps, h) && ArrayOk(s.subMaps[h], |s.threads|);
      HashArray.RefusedIsAbsent(s.subMaps[h].cfg, s.subMaps[h].arr, k);
    }
  }

  // ----- Searches of the whole map -----

  /** A step changes at most one sub-map. */
  lemma OneSubMapChanges(s: State, t: nat, a: Action, i: nat, h: nat)
    requires i < |s.subMaps| && h < |s.subMaps| && i != h
    ensures var s' := Exec(s, t, a);
      |s'.subMaps| == |s.subMaps| && (s'.subMaps[i] == s.subMaps[i] || s'.subMaps[h] == s.subMaps[h])
  {
    hide HashArray.Exec;
  }

  /** A key that does not leave the map does not leave its sub-map. */
  lemma KeyStaysHome(s: State, t: nat, a: Action, i: nat, h: nat, k: Key)
    requires Inv(s) && i < |s.subMaps| && h < |Exec(s, t, a).subMaps|
    requires HasKey(s.subMaps[i], k) && HasKey(Exec(s, t, a).subMaps[h], k)
    ensures i == h
  {
    var s' := Exec(s, t, a);
    ExecInv(s, t, a);
    hide Exec, Inv, HasKey;
    assert |s.subMaps| == NUM_SUB_MAPS == |s'.subMaps| by {
      Sizes(s);
      Sizes(s');
    }
    if i != h {
      OneSubMapChanges(s, t, a, i, h);
      if s'.subMaps[i] == s.subMaps[i] {
        InvOneHome(s', i, h, k);
      } else {
        InvOneHome(s, i, h, k);
      }
    }
  }

  lemma Sizes(s: State)
    requires Inv(s)
    ensures |s.subMaps| == NUM_SUB_MAPS
  {
  }

  lemma InvOneHome(s: State, i: nat, h: nat, k: Key)
    requires Inv(s) && i < |s.subMaps| && h < |s.subMaps| && HasKey(s.subMaps[i], k) && HasKey(s.subMaps[h], k)
    ensures i == h
  {
    NotInEarlier(s, i, k);
    NotInEarlier(s, h, k);
  }

  ghost predicate SubStep(m: SubMap, m': SubMap, u: nat, a: HashArray.Action)
    requires m.Real?
  {
    m' == m.(arr := HashArray.Exec(m.cfg, m.arr, u, a))
  }

  /** What a step can do to a sub-map that exists. */
  lemma StepOfSubMap(s: State, u: nat, a: Action, i: nat)
    requires IsReal(s.subMaps, i) && !(u < |s.threads| && s.threads[u].CreateMap? && s.threads[u].next == i)
    ensures IsReal(Exec(s, u, a).subMaps, i)
    ensures Exec(s, u, a).subMaps[i] == s.subMaps[i] ||
      exists b :: SubStep(s.subMaps[i], Exec(s, u, a).subMaps[i], u, b)
  {
    if u < |s.threads| && a.Go? {
      var m, m' := s.subMaps[i], Exec(s, u, a).subMaps[i];
      match s.threads[u] {
        case InsertLoad(k, v, _, _) => assert m' == m || SubStep(m, m', u, HashArray.StartInsert(k, v));
        case LoadLast(k, v, _) => assert m' == m || SubStep(m, m', u, HashArray.StartInsert(k, v));
        case FindLoad(k, _, _) => assert m' == m || SubStep(m, m', u, HashArray.StartFind(k));
        case EraseLoad(k, _, _) => assert m' == m || SubStep(m, m', u, HashArray.StartErase(k));
        case InsertAt(_, _, _, _, _) => assert m' == m || SubStep(m, m', u, HashArray.Go(a.throws, a.mark));
        case FindAt(_, _, _) => assert m' == m || SubStep(m, m', u, HashArray.Go(a.throws, a.mark));
        case EraseAt(_, _, _) => assert m' == m || SubStep(m, m', u, HashArray.Go(a.throws, a.mark));
        case _ =>
      }
    }
  }

  /** Other threads do not disturb a thread's call inside a sub-map. */
  lemma UndisturbedInside(s: State, t: nat, u: nat, a: Action, i: nat)
    requires Inv(s) && t < |s.threads| && u != t && IsReal(s.subMaps, i)
    ensures IsReal(Exec(s, u, a).subMaps, i)
    ensures var m, m' := s.subMaps[i], Exec(s, u, a).subMaps[i];
      && |m'.arr.threads| == |m.arr.threads| == |s.threads| && m'.arr.threads[t] == m.arr.threads[t]
  {
    SubLive(s, t, i);
    if u < |s.threads| {
      NotLockedHere(s, u, i);
    }
    hide HashArray.Exec, Exec, Inv, HashArray.Inv;
    StepOfSubMap(s, u, a, i);
    var m, m' := s.subMaps[i], Exec(s, u, a).subMaps[i];
    if m' != m {
      var b :| SubStep(m, m', u, b);
      HashArray.OtherThreads(m.cfg, m.arr, t, u, b);
    }
  }

  lemma UndisturbedThread(s: State, t: nat, u: nat, a: Action)
    requires t < |s.threads| && u != t
    ensures |Exec(s, u, a).threads| == |s.threads| && Exec(s, u, a).threads[t] == s.threads[t]
  {
    hide HashArray.Exec;
  }

  /** A find that has not missed sub-map `home`. */
  predicate Finding(s: State, t: nat, k: Key, home: nat) {
    t < |s.threads| &&
    match s.threads[t]
    case FindLoad(q, i, num) => q == k && (i == 0 || i <= home < num)
    case FindNum(q) => q == k && home >= 1
    case FindAt(q, i, num) =>
      && q == k && i <= home && (i == 0 || home < num) && IsReal(s.subMaps, i) && t < |s.subMaps[i].arr.threads|
      && var l := s.subMaps[i].arr.threads[t];
         if i == home then HashArray.Searching(l, k) else (l.Find? || (l.Done? && l.result.NotFound?)) && l.key == k
    case Done(q, r) => q == k && r.At? && r.success
    case _ => false
  }

  lemma FindOtherStep(s: State, t: nat, u: nat, a: Action, k: Key, home: nat)
    requires Inv(s) && u != t && Finding(s, t, k, home)
    ensures Finding(Exec(s, u, a), t, k, home)
  {
    hide HashArray.Exec, HashArray.Inv, Inv, Exec;
    UndisturbedThread(s, t, u, a);
    if s.threads[t].FindAt? {
      UndisturbedInside(s, t, u, a, s.threads[t].i);
    }
  }

  lemma FindEnters(s: State, t: nat, a: Action, k: Key, home: nat)
    requires Inv(s) && Finding(s, t, k, home) && a.Go? && s.threads[t].FindLoad? && home < |s.subMaps|
    requires HasKey(s.subMaps[home], k)
    ensures Finding(Exec(s, t, a), t, k, home)
  {
    hide HashArray.Exec, HashArray.Inv, Inv, Placed, ArrayOk;
    InvThread(s, t);
    var i := s.threads[t].i;
    SubLive(s, t, i);
    HashArray.StartsCall(s.subMaps[i].cfg, s.subMaps[i].arr, t, HashArray.StartFind(k));
  }

  lemma FindInside(s: State, t: nat, a: Action, k: Key, home: nat)
    requires Inv(s) && Finding(s, t, k, home) && a.Go? && s.threads[t].FindAt? && home < |s.subMaps|
    requires HasKey(s.subMaps[home], k)
    ensures Finding(Exec(s, t, a), t, k, home)
  {
    hide HashArray.Exec, HashArray.Inv, Inv, Placed, ArrayOk;
    InvThread(s, t);
    var i := s.threads[t].i;
    SubLive(s, t, i);
    if Answer(s, t, i).None? {
      if i == home {
        HashArray.SearchStep(s.subMaps[i].cfg, s.subMaps[i].arr, t, k, HashArray.Go(a.throws, a.mark));
      } else {
        NotInEarlier(s, home, k);
        HashArray.SearchInVain(s.subMaps[i].cfg, s.subMaps[i].arr, t, HashArray.Go(a.throws, a.mark), k);
      }
    }
  }

  lemma FindOwnStep(s: State, t: nat, a: Action, k: Key, home: nat)
    requires Inv(s) && Finding(s, t, k, home) && a.Go? && home < |s.subMaps| && HasKey(s.subMaps[home], k)
    ensures Finding(Exec(s, t, a), t, k, home)
  {
    match s.threads[t] {
      case FindLoad(_, _, _) => FindEnters(s, t, a, k, home);
      case FindAt(_, _, _) => FindInside(s, t, a, k, home);
      case FindNum(_) => assert home < s.num;
      case _ =>
    }
  }

  // ----- The same over runs -----

  predicate OneCall(schedule: seq<(nat, Action)>, t: nat) {
    forall i :: 0 <= i < |schedule| && schedule[i].0 == t ==> schedule[i].1.Go?
  }

  predicate InMap(s: State, k: Key) {
    exists h :: 0 <= h < |s.subMaps| && HasKey(s.subMaps[h], k)
  }

  ghost predicate PresentThroughout(s: State, schedule: seq<(nat, Action)>, k: Key) {
    forall i :: 0 <= i < |schedule| ==> InMap(Run(s, schedule[..i]), k)
  }

  lemma PresentBefore(s: State, schedule: seq<(nat, Action)>, k: Key)
    requires |schedule| > 0 && PresentThroughout(s, schedule, k)
    ensures PresentThroughout(s, schedule[..|schedule| - 1], k) && InMap(Run(s, schedule[..|schedule| - 1]), k)
  {
    var less := schedule[..|schedule| - 1];
    forall i | 0 <= i < |less| ensures InMap(Run(s, less[..i]), k) {
      assert less[..i] == schedule[..i];
    }
  }

  /** A key that is in the map all along is in the same sub-map all along. */
  lemma {:induction false} HomeThroughout(s: State, schedule: seq<(nat, Action)>, k: Key, home: nat)
    requires Inv(s) && home < |s.subMaps| && HasKey(s.subMaps[home], k)
    requires PresentThroughout(s, schedule, k) && InMap(Run(s, schedule), k)
    ensures home < |Run(s, schedule).subMaps| && HasKey(Run(s, schedule).subMaps[home], k)
  {
    if |schedule| > 0 {
      hide Inv, Exec, HasKey;
      var less, last := schedule[..|schedule| - 1], schedule[|schedule| - 1];
      PresentBefore(s, schedule, k);
      HomeThroughout(s, less, k, home);
      RunInv(s, less);
      var h :| 0 <= h < |Run(s, schedule).subMaps| && HasKey(Run(s, schedule).subMaps[h], k);
      KeyStaysHome(Run(s, less), last.0, last.1, home, h, k);
    }
  }

  /** A key that is in the map all through a find is found, while others insert, erase
      and grow the map. */
  lemma {:induction false} FindNeverMisses(s: State, t: nat, k: Key, more: seq<(nat, Action)>, home: nat)
    requires Inv(s) && t < |s.threads| && s.threads[t] == FindLoad(k, 0, 0)
    requires home < |s.subMaps| && HasKey(s.subMaps[home], k)
    requires OneCall(more, t) && PresentThroughout(s, more, k)
    ensures Finding(Run(s, more), t, k, home)
  {
    if |more| > 0 {
      hide Inv, Exec, HasKey, InMap;
      var less, last := more[..|more| - 1], more[|more| - 1];
      PresentBefore(s, more, k);
      FindNeverMisses(s, t, k, less, home);
      RunInv(s, less);
      HomeThroughout(s, less, k, home);
      if last.0 == t {
        FindOwnStep(Run(s, less), t, last.1, k, home);
      } else {
        FindOtherStep(Run(s, less), t, last.0, last.1, k, home);
      }
    }
  }

  /** An erase that has not missed sub-map `home`. */
  predicate Deleting(s: State, t: nat, k: Key, home: nat) {
    t < |s.threads| &&
    match s.threads[t]
    case EraseStart(q) => q == k
    case EraseLoad(q, i, num) => q == k && i <= home < num
    case EraseAt(q, i, num) =>
      && q == k && i <= home < num && IsReal(s.subMaps, i) && t < |s.subMaps[i].arr.threads|
      && |s.subMaps[i].arr.cells| == s.subMaps[i].cfg.cap
      && var l := s.subMaps[i].arr.threads[t];
         if i == home then HashArray.Erasing(s.subMaps[i].cfg, s.subMaps[i].arr, l, k)
         else (l.Erase? || (l.Done? && l.result.NotRemoved?)) && l.key == k
    case Done(q, r) => q == k && r.Removed?
    case _ => false
  }

  lemma EraseOtherStep(s: State, t: nat, u: nat, a: Action, k: Key, home: nat)
    requires Inv(s) && u != t && Deleting(s, t, k, home) && home < |s.subMaps| && HasKey(s.subMaps[home], k)
    ensures Deleting(Exec(s, u, a), t, k, home)
  {
    UndisturbedThread(s, t, u, a);
    if s.threads[t].EraseAt? {
      var i := s.threads[t].i;
      if u < |s.threads| {
        NotLockedHere(s, u, i);
      }
      SubLive(s, t, i);
      hide HashArray.Exec, Exec, Inv, HashArray.Inv, HashArray.Erasing, HashArray.Absent, ArrayOk, SubAt;
      StepOfSubMap(s, u, a, i);
      var m, m' := s.subMaps[i], Exec(s, u, a).subMaps[i];
      if m' != m {
        var b :| SubStep(m, m', u, b);
        HashArray.OtherThreads(m.cfg, m.arr, t, u, b);
        HashArray.KeepsCellCount(m.cfg, m.arr, u, b);
        if i == home {
          HashArray.EraseOtherStep(m.cfg, m.arr, t, k, u, b);
        }
      }
    }
  }

  lemma EraseInside(s: State, t: nat, a: Action, k: Key, home: nat)
    requires Inv(s) && Deleting(s, t, k, home) && a.Go? && s.threads[t].EraseAt? && home < |s.subMaps|
    requires HasKey(s.subMaps[home], k)
    ensures Deleting(Exec(s, t, a), t, k, home)
  {
    hide HashArray.Exec, HashArray.Inv, Inv, Placed, ArrayOk;
    InvThread(s, t);
    var i := s.threads[t].i;
    SubLive(s, t, i);
    var b := HashArray.Go(a.throws, a.mark);
    if Answer(s, t, i).None? {
      HashArray.KeepsCellCount(s.subMaps[i].cfg, s.subMaps[i].arr, t, b);
      if i == home {
        HashArray.EraseOwnStep(s.subMaps[i].cfg, s.subMaps[i].arr, t, k, b);
      } else {
        NotInEarlier(s, home, k);
        HashArray.SearchInVain(s.subMaps[i].cfg, s.subMaps[i].arr, t, b, k);
      }
    }
  }

  lemma EraseEnters(s: State, t: nat, a: Action, k: Key, home: nat)
    requires Inv(s) && Deleting(s, t, k, home) && a.Go? && s.threads[t].EraseLoad? && home < |s.subMaps|
    requires HasKey(s.subMaps[home], k)
    ensures Deleting(Exec(s, t, a), t, k, home)
  {
    hide HashArray.Exec, HashArray.Inv, Inv, Placed, ArrayOk;
    InvThread(s, t);
    var i := s.threads[t].i;
    SubLive(s, t, i);
    HashArray.StartsCall(s.subMaps[i].cfg, s.subMaps[i].arr, t, HashArray.StartErase(k));
    HashArray.KeepsCellCount(s.subMaps[i].cfg, s.subMaps[i].arr, t, HashArray.StartErase(k));
  }

  lemma EraseOwnStep(s: State, t: nat, a: Action, k: Key, home: nat)
    requires Inv(s) && Deleting(s, t, k, home) && a.Go? && home < |s.subMaps| && HasKey(s.subMaps[home], k)
    ensures Deleting(Exec(s, t, a), t, k, home)
  {
    match s.threads[t] {
      case EraseLoad(_, _, _) => EraseEnters(s, t, a, k, home);
      case EraseAt(_, _, _) => EraseInside(s, t, a, k, home);
      case EraseStart(_) => assert home < s.num;
      case _ =>
    }
  }

  /** An erase does not give up on a key that is in the map all along. */
  lemma {:induction false} EraseNeverMisses(s: State, t: nat, k: Key, more: seq<(nat, Action)>, home: nat)
    requires Inv(s) && t < |s.threads| && s.threads[t] == EraseStart(k)
    requires home < |s.subMaps| && HasKey(s.subMaps[home], k)
    requires OneCall(more, t) && PresentThroughout(s, more, k)
    ensures Deleting(Run(s, more), t, k, home)
  {
    if |more| > 0 {
      hide Inv, Exec, HasKey, InMap;
      var less, last := more[..|more| - 1], more[|more| - 1];
      PresentBefore(s, more, k);
      EraseNeverMisses(s, t, k, less, home);
      RunInv(s, less);
      HomeThroughout(s, less, k, home);
      if last.0 == t {
        EraseOwnStep(Run(s, less), t, last.1, k, home);
      } else {
        EraseOtherStep(Run(s, less), t, last.0, last.1, k, home);
      }
    }
  }

  // ----- Indices of records -----

  const SECONDARY_BIT: bv32 := 0x8000_0000
  const INDEX_MASK: bv32 := 0x07FF_FFFF

  /** encodeIndex: a primary offset as it is, others with the sub-map's number. */
  function EncodeIndex(subMap: bv32, offset: bv32): bv32 {
    if subMap == 0 then offset else offset | (subMap << 27) | SECONDARY_BIT
  }

  /** findAtInternal. */
  function DecodeIndex(idx: bv32): (bv32, bv32) {
    if idx & SECONDARY_BIT != 0 then
      var rest := idx & !SECONDARY_BIT;
      (rest >> 27, rest & INDEX_MASK)
    else (0, idx)
  }

  /** Under the checks that encodeIndex makes, nothing is lost. */
  lemma IndexRoundTrip(subMap: bv32, offset: bv32)
    requires offset & SECONDARY_BIT == 0 && subMap >> 4 == 0 && (subMap != 0 ==> offset & !INDEX_MASK == 0)
    ensures DecodeIndex(EncodeIndex(subMap, offset)) == (subMap, offset)
  {
  }

  // ----- What the sub-maps are made with -----

  ghost predicate SizedAt(s: State, i: nat)
    requires i < |s.subMaps|
  {
    s.subMaps[i].Real? ==> s.subMaps[i].cfg == ConfigAt(s.given, i)
  }

  predicate MayGrow(s: State, t: nat)
    requires t < |s.threads|
  {
    s.threads[t].TryLockMap? || s.threads[t].CreateMap? ==> CanGrow(s.given)
  }

  ghost predicate Sized(s: State) {
    && ValidSettings(s.given)
    && (forall i :: 0 <= i < |s.subMaps| ==> SizedAt(s, i))
    && (forall t :: 0 <= t < |s.threads| ==> MayGrow(s, t))
  }

  lemma SettingsStay(s: State, t: nat, a: Action)
    ensures var s' := Exec(s, t, a);
      s'.given == s.given && |s'.subMaps| == |s.subMaps| && |s'.threads| == |s.threads| && s.num <= s'.num
  {
    hide HashArray.Exec, ConfigAt, CanGrow;
  }

  lemma SizedStepAt(s: State, t: nat, a: Action, i: nat)
    requires i < |s.subMaps| && SizedAt(s, i)
    ensures i < |Exec(s, t, a).subMaps| && SizedAt(Exec(s, t, a), i)
  {
    hide HashArray.Exec, ConfigAt, CanGrow;
  }

  lemma MayGrowStep(s: State, t: nat, a: Action, u: nat)
    requires u < |s.threads| && MayGrow(s, u)
    ensures u < |Exec(s, t, a).threads| && MayGrow(Exec(s, t, a), u)
  {
    hide HashArray.Exec, ConfigAt, CanGrow;
  }

  lemma SizedStep(s: State, t: nat, a: Action)
    requires Sized(s)
    ensures Sized(Exec(s, t, a))
  {
    hide Exec, SizedAt, MayGrow, ValidSettings;
    SettingsStay(s, t, a);
    var s' := Exec(s, t, a);
    forall i | 0 <= i < |s'.subMaps| ensures SizedAt(s', i) {
      SizedStepAt(s, t, a, i);
    }
    forall u | 0 <= u < |s'.threads| ensures MayGrow(s', u) {
      MayGrowStep(s, t, a, u);
    }
  }

  lemma {:induction false} SizedRun(given: Settings, n: nat, schedule: seq<(nat, Action)>)
    requires ValidSettings(given)
    ensures Sized(Run(Initial(given, n), schedule)) && Run(Initial(given, n), schedule).given == given
  {
    if |schedule| > 0 {
      hide Exec, Sized, Initial, ValidSettings;
      var less, last := schedule[..|schedule| - 1], schedule[|schedule| - 1];
      SizedRun(given, n, less);
      SettingsStay(Run(Initial(given, n), less), last.0, last.1);
      SizedStep(Run(Initial(given, n), less), last.0, last.1);
    } else {
      hide Primary, CanGrow;
      var s := Initial(given, n);
      FirstIsPrimary(given);
      hide ConfigAt;
      forall i | 0 <= i < |s.subMaps| ensures SizedAt(s, i) {
      }
    }
  }

  /** In every run each sub-map is as large as its place asks for, and hashes and probes as the
      primary does (`NewSubMapIs` says the same in numbers); and nothing but the first is ever
      made when the growth fraction of the primary is less than one cell. */
  lemma {:induction false} MadeToMeasure(given: Settings, n: nat, schedule: seq<(nat, Action)>, i: nat)
    requires ValidSettings(given) && i < NUM_SUB_MAPS
    ensures var s := Run(Initial(given, n), schedule);
      && |s.subMaps| == NUM_SUB_MAPS
      && (s.subMaps[i].Real? ==> s.subMaps[i].cfg == ConfigAt(given, i) && s.subMaps[i].cfg.cap >= 1)
      && (s.subMaps[i].Real? && i >= 1 ==>
            s.subMaps[0].Real? && GrownFrom(s.subMaps[0].cfg, GrowthOf(given), i, s.subMaps[i].cfg))
      && (!CanGrow(given) && i >= 1 ==> s.subMaps[i].Null?)
  {
    hide Run, ConfigAt, CanGrow, ValidSettings, GrownFrom;
    var s := Run(Initial(given, n), schedule);
    assert Inv(s) by {
      InitialInv(given, n);
      RunInv(Initial(given, n), schedule);
    }
    SizedRun(given, n, schedule);
    NoneMade(given, n, schedule);
    assert SizedAt(s, i) && SizedAt(s, 0) && SlotAt(s.subMaps, s.num, s.threads, 0);
    hide Inv, Sized;
    if s.subMaps[i].Real? {
      if CanGrow(given) {
        NewCapacityPositive(given, i);
        FirstIsPrimary(given);
        if i >= 1 {
          ConfigAtIs(given, i);
        }
      } else {
        FirstIsPrimary(given);
        PrimaryIsUsable(given);
      }
    }
  }

  lemma NotMadeStep(s: State, t: nat, a: Action, i: nat)
    requires Sized(s) && !CanGrow(s.given) && i < |s.subMaps| && s.subMaps[i].Null?
    ensures i < |Exec(s, t, a).subMaps| && Exec(s, t, a).subMaps[i].Null?
  {
    if t < |s.threads| {
      assert MayGrow(s, t);
    }
    hide HashArray.Exec, ConfigAt, CanGrow;
  }

  lemma {:induction false} NoneMade(given: Settings, n: nat, schedule: seq<(nat, Action)>)
    requires ValidSettings(given)
    ensures var s := Run(Initial(given, n), schedule);
      |s.subMaps| == NUM_SUB_MAPS && (!CanGrow(given) ==> forall i :: 1 <= i < NUM_SUB_MAPS ==> s.subMaps[i].Null?)
  {
    hide CanGrow, Sized, ValidSettings, Primary;
    if |schedule| > 0 {
      hide Exec, Initial;
      var less, last := schedule[..|schedule| - 1], schedule[|schedule| - 1];
      var m := Run(Initial(given, n), less);
      NoneMade(given, n, less);
      SizedRun(given, n, less);
      SettingsStay(m, last.0, last.1);
      if !CanGrow(given) {
        forall i | 1 <= i < NUM_SUB_MAPS ensures Run(Initial(given, n), schedule).subMaps[i].Null? {
          NotMadeStep(m, last.0, last.1, i);
        }
      }
    }
  }
}
