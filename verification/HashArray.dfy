/** The lock-free hash array of folly (libs/folly/folly/AtomicHashArray-inl.h:46-297,
    libs/folly/folly/AtomicHashArray.h:46-66): any number of threads insert, erase and
    find, one atomic access per step. The pending counter is one atomic number. */
module HashArray {
  import opened Common

  type Key = int
  type Value = int

  // ----- Probing -----

  /** What is fixed when the array is made; `maxEntries` is when it is closed for inserts. */
  datatype Config = Config(cap: nat, hash: Key -> nat, mask: nat, quadratic: bool, maxEntries: nat)

  /** keyToAnchorIdx: masking if that lands in the array, the residue otherwise. */
  function Anchor(cfg: Config, k: Key): (i: nat)
    requires cfg.cap > 0
    ensures i < cfg.cap
  {
    var probe := BitAnd(cfg.hash(k), cfg.mask);
    if probe < cfg.cap then probe else cfg.hash(k) % cfg.cap
  }

  /** The linear and the quadratic probe functions. */
  function Probe(cfg: Config, idx: nat, numProbes: nat): (i: nat)
    requires idx < cfg.cap && 0 < numProbes < cfg.cap
    ensures i < cfg.cap
  {
    var next := if cfg.quadratic then idx + numProbes else idx + 1;
    if next < cfg.cap then next else next - cfg.cap
  }

  /** The cell that a search for `k` looks at after `j` probes. */
  function Path(cfg: Config, k: Key, j: nat): (i: nat)
    requires j < cfg.cap
    ensures i < cfg.cap
  {
    if j == 0 then Anchor(cfg, k) else Probe(cfg, Path(cfg, k, j - 1), j)
  }

  /** How far from its anchor a key is after `j` probes. */
  function Offset(quadratic: bool, j: nat): nat {
    if !quadratic then j else if j == 0 then 0 else Offset(quadratic, j - 1) + j
  }

  lemma {:induction false} SlotPlus(x: nat, d: nat, n: nat)
    requires n > 0 && d < n
    ensures Slot(x + d, n) == if Slot(x, n) + d < n then Slot(x, n) + d else Slot(x, n) + d - n
    decreases x
  {
    if x >= n {
      SlotPlus(x - n, d, n);
    }
  }

  /** The subtraction in the probe functions is the residue. */
  lemma {:induction false} PathIsOffset(cfg: Config, k: Key, j: nat)
    requires j < cfg.cap
    ensures Path(cfg, k, j) == (Anchor(cfg, k) + Offset(cfg.quadratic, j)) % cfg.cap
  {
    SlotIsResidue(Anchor(cfg, k) + Offset(cfg.quadratic, j), cfg.cap);
    if j > 0 {
      var x := Anchor(cfg, k) + Offset(cfg.quadratic, j - 1);
      PathIsOffset(cfg, k, j - 1);
      SlotIsResidue(x, cfg.cap);
      SlotPlus(x, if cfg.quadratic then j else 1, cfg.cap);
    }
  }

  /** Linear probing looks at every cell exactly once. */
  lemma LinearProbesEveryCell(cfg: Config, k: Key, c: nat)
    requires !cfg.quadratic && c < cfg.cap
    ensures exists j :: 0 <= j < cfg.cap && Path(cfg, k, j) == c
    ensures forall i, j :: 0 <= i < cfg.cap && 0 <= j < cfg.cap && Path(cfg, k, i) == Path(cfg, k, j) ==> i == j
  {
    var a := Anchor(cfg, k);
    forall j | 0 <= j < cfg.cap
      ensures Path(cfg, k, j) == if a + j < cfg.cap then a + j else a + j - cfg.cap
    {
      LinearPath(cfg, k, j);
    }
    var j := if c >= a then c - a else c + cfg.cap - a;
    assert Path(cfg, k, j) == c;
  }

  lemma {:induction false} LinearPath(cfg: Config, k: Key, j: nat)
    requires !cfg.quadratic && j < cfg.cap
    ensures var a := Anchor(cfg, k); Path(cfg, k, j) == if a + j < cfg.cap then a + j else a + j - cfg.cap
  {
    if j > 0 {
      LinearPath(cfg, k, j - 1);
    }
  }

  // ----- The array and its threads -----

  /** A cell's key; `holder` (the thread that locked it) and `probe` (how many probes its
      key needed) are history, not storage. */
  datatype Cell =
    | Empty
    | Locked(holder: nat)
    | Erased
    | Real(key: Key, value: Value, probe: nat)

  /** Where an insert is: before the load of the cell's key; before the pending count
      goes up; before the load of isFull_; the way out when it is set (count down, the
      two tests of the spin, the store, the second look at the cell); before the lock;
      inside the lock; after a throwing constructor; after the new key is in place; the
      entry count, its fast reading and isFull_; after a lost lock; waiting for a locked cell; comparing. */
  datatype Pc =
    | LoadCell | CountUp | LoadFull
    | FullDown | SpinFull | SpinPending | StoreFull | Recheck
    | TryLock | Build | ThrownDown | DoneDown | CountEntry | ReadEntries | MarkFull
    | LostDown | Wait | Compare

  /** Results. `absent` tells whether at some instant of the call the key was not in
      the array; it is history. */
  datatype Result =
    | Inserted(idx: nat)
    | Existing(idx: nat)
    | Full
    | Threw
    | Found(idx: nat)
    | NotFound(absent: bool)
    | Removed
    | NotRemoved(absent: bool)

  datatype Local =
    | Idle
    | Ins(pc: Pc, key: Key, value: Value, j: nat)
    | Find(key: Key, j: nat, absent: bool)
    | Erase(key: Key, j: nat)
    | EraseCas(key: Key, j: nat, began: nat)
    | Done(key: Key, result: Result)

  /** `frozen`: some insert has left the spin, so nobody can add a key any more.
      `removed` counts erasures, `gone` says which was the last one of a key, and
      `fullKeys` are the keys whose insert was refused: history. */
  datatype State = State(
    cells: seq<Cell>,
    threads: seq<Local>,
    pending: nat,
    isFull: nat,
    entries: nat,
    frozen: bool,
    removed: nat,
    gone: map<Key, nat>,
    fullKeys: set<Key>)

  function Initial(cfg: Config, n: nat): State {
    State(seq(cfg.cap, _ => Empty), seq(n, _ => Idle), 0, 0, 0, false, 0, map[], {})
  }

  predicate Absent(cells: seq<Cell>, k: Key) {
    forall c :: 0 <= c < |cells| ==> !(cells[c].Real? && cells[c].key == k)
  }

  // ----- Steps -----

  /** A call begins, or the thread does its next access: `throws` is whether the value
      constructor throws, `mark` whether an entry count that has come to the limit also
      reads as that, which readFast() may miss. */
  datatype Action =
    | StartInsert(k: Key, v: Value)
    | StartFind(k: Key)
    | StartErase(k: Key)
    | Go(throws: bool, mark: bool)

  function Down(n: nat): nat { if n == 0 then 0 else n - 1 }

  /** Where an insert goes next. */
  function InsertLocal(cfg: Config, s: State, l: Local, throws: bool, mark: bool): Local
    requires |s.cells| == cfg.cap && l.Ins? && l.j < cfg.cap
  {
    var c := Path(cfg, l.key, l.j);
    var x := s.cells[c];
    match l.pc
    case LoadCell => l.(pc := if x.Empty? then CountUp else Wait)
    case CountUp => l.(pc := LoadFull)
    case LoadFull => l.(pc := if s.isFull != 0 then FullDown else TryLock)
    case FullDown => l.(pc := SpinFull)
    case SpinFull => l.(pc := if s.isFull != 2 then SpinPending else StoreFull)
    case SpinPending => l.(pc := if s.pending != 0 then SpinFull else StoreFull)
    case StoreFull => l.(pc := Recheck)
    case Recheck => if x.Empty? then Done(l.key, Full) else l.(pc := Wait)
    case TryLock => l.(pc := if x.Empty? then Build else LostDown)
    case Build => l.(pc := if throws then ThrownDown else DoneDown)
    case ThrownDown => Done(l.key, Threw)
    case DoneDown => l.(pc := CountEntry)
    case CountEntry => l.(pc := ReadEntries)
    case ReadEntries => if mark && s.entries >= cfg.maxEntries then l.(pc := MarkFull) else Done(l.key, Inserted(c))
    case MarkFull => Done(l.key, Inserted(c))
    case LostDown => l.(pc := Wait)
    case Wait => l.(pc := if x.Locked? then Wait else Compare)
    case Compare =>
      if x.Real? && x.key == l.key then Done(l.key, Existing(c))
      else if x.Empty? || x.Locked? then l.(pc := LoadCell)
      else if l.j + 1 >= cfg.cap then Done(l.key, Full)
      else l.(pc := LoadCell, j := l.j + 1)
  }

  /** What it writes. */
  function InsertStep(cfg: Config, s: State, t: nat, l: Local, throws: bool, mark: bool): State
    requires t < |s.threads| && |s.cells| == cfg.cap && l.Ins? && l.j < cfg.cap
  {
    var c := Path(cfg, l.key, l.j);
    var l' := InsertLocal(cfg, s, l, throws, mark);
    var fullKeys := if l' == Done(l.key, Full) then s.fullKeys + {l.key} else s.fullKeys;
    var s' := s.(threads := s.threads[t := l'], fullKeys := fullKeys);
    match l.pc
    case CountUp => s'.(pending := s.pending + 1)
    case FullDown => s'.(pending := Down(s.pending))
    case ThrownDown => s'.(pending := Down(s.pending))
    case DoneDown => s'.(pending := Down(s.pending))
    case LostDown => s'.(pending := Down(s.pending))
    case SpinPending => s'.(frozen := s.frozen || s.pending == 0)
    case CountEntry => s'.(entries := s.entries + 1)
    case StoreFull => s'.(isFull := 2)
    case MarkFull => s'.(isFull := 1)
    case TryLock => if s.cells[c].Empty? then s'.(cells := s.cells[c := Locked(t)]) else s'
    case Build => s'.(cells := s.cells[c := if throws then Empty else Real(l.key, l.value, l.j)])
    case _ => s'
  }

  function FindStep(cfg: Config, s: State, l: Local): Local
    requires |s.cells| == cfg.cap && l.Find? && l.j < cfg.cap
  {
    var c := Path(cfg, l.key, l.j);
    var x := s.cells[c];
    var absent := l.absent || Absent(s.cells, l.key);
    if x.Real? && x.key == l.key then Done(l.key, Found(c))
    else if x.Empty? || l.j + 1 >= cfg.cap then Done(l.key, NotFound(absent))
    else Find(l.key, l.j + 1, absent)
  }

  function EraseStep(cfg: Config, s: State, l: Local): Local
    requires |s.cells| == cfg.cap && l.Erase? && l.j < cfg.cap
  {
    var x := s.cells[Path(cfg, l.key, l.j)];
    if x.Empty? || x.Locked? then Done(l.key, NotRemoved(Absent(s.cells, l.key)))
    else if x.Real? && x.key == l.key then EraseCas(l.key, l.j, s.removed)
    else if l.j + 1 >= cfg.cap then Done(l.key, NotRemoved(Absent(s.cells, l.key)))
    else Erase(l.key, l.j + 1)
  }

  function CasStep(cfg: Config, s: State, t: nat, l: Local): State
    requires t < |s.threads| && |s.cells| == cfg.cap && l.EraseCas? && l.j < cfg.cap
  {
    var c := Path(cfg, l.key, l.j);
    var x := s.cells[c];
    if x.Real? && x.key == l.key then
      s.(cells := s.cells[c := Erased], threads := s.threads[t := Done(l.key, Removed)],
         gone := s.gone[l.key := s.removed], removed := s.removed + 1)
    else
      s.(threads := s.threads[t := Done(l.key, NotRemoved(l.key in s.gone && s.gone[l.key] >= l.began))])
  }

  function Exec(cfg: Config, s: State, t: nat, a: Action): State {
    if t >= |s.threads| || |s.cells| != cfg.cap || cfg.cap == 0 then s
    else
      var l := s.threads[t];
      match a
      case StartInsert(k, v) => if l.Idle? || l.Done? then s.(threads := s.threads[t := Ins(LoadCell, k, v, 0)]) else s
      case StartFind(k) => if l.Idle? || l.Done? then s.(threads := s.threads[t := Find(k, 0, false)]) else s
      case StartErase(k) => if l.Idle? || l.Done? then s.(threads := s.threads[t := Erase(k, 0)]) else s
      case Go(throws, mark) =>
        if l.Idle? || l.Done? || l.j >= cfg.cap then s
        else if l.Ins? then InsertStep(cfg, s, t, l, throws, mark)
        else if l.Find? then s.(threads := s.threads[t := FindStep(cfg, s, l)])
        else if l.Erase? then s.(threads := s.threads[t := EraseStep(cfg, s, l)])
        else CasStep(cfg, s, t, l)
  }

  function Run(cfg: Config, s: State, schedule: seq<(nat, Action)>): State {
    if |schedule| == 0 then s
    else
      var last := schedule[|schedule| - 1];
      Exec(cfg, Run(cfg, s, schedule[..|schedule| - 1]), last.0, last.1)
  }

  // ----- The invariant -----

  /** Holds a key other than `k`, or did; no step changes that. */
  predicate Settled(x: Cell, k: Key) { x.Erased? || (x.Real? && x.key != k) }

  /** The first `n` cells on the way of `k` are settled. */
  predicate Prefix(cfg: Config, cells: seq<Cell>, k: Key, n: nat)
    requires |cells| == cfg.cap
  {
    n <= cfg.cap && forall j :: 0 <= j < n ==> Settled(cells[Path(cfg, k, j)], k)
  }

  /** Every key sits where its probes lead, behind settled cells. */
  predicate ChainAt(cfg: Config, cells: seq<Cell>, c: nat)
    requires |cells| == cfg.cap && c < cfg.cap
  {
    cells[c].Real? ==>
      var x := cells[c];
      x.probe < cfg.cap && Path(cfg, x.key, x.probe) == c && Prefix(cfg, cells, x.key, x.probe)
  }

  predicate Chain(cfg: Config, cells: seq<Cell>)
    requires |cells| == cfg.cap
  {
    forall c :: 0 <= c < cfg.cap ==> ChainAt(cfg, cells, c)
  }

  /** Counted in numPendingEntries_. */
  predicate Pending(l: Local) {
    l.Ins? && (l.pc.LoadFull? || l.pc.FullDown? || l.pc.TryLock? || l.pc.Build? || l.pc.ThrownDown?
               || l.pc.DoneDown? || l.pc.LostDown?)
  }

  predicate InsertOk(cfg: Config, cells: seq<Cell>, isFull: nat, frozen: bool, t: nat, l: Local)
    requires |cells| == cfg.cap && l.Ins?
  {
    && l.j < cfg.cap && Prefix(cfg, cells, l.key, l.j)
    && (l.pc.FullDown? || l.pc.SpinFull? || l.pc.SpinPending? ==> isFull > 0)
    && (l.pc.StoreFull? || l.pc.Recheck? ==> frozen)
    && (l.pc.TryLock? || l.pc.Build? ==> !frozen)
    && (l.pc.Build? ==> cells[Path(cfg, l.key, l.j)] == Locked(t))
  }

  predicate CasOk(cfg: Config, cells: seq<Cell>, gone: map<Key, nat>, l: Local)
    requires |cells| == cfg.cap && l.EraseCas?
  {
    l.j < cfg.cap &&
    var x := cells[Path(cfg, l.key, l.j)];
    (x.Real? && x.key == l.key) || (x.Erased? && l.key in gone && gone[l.key] >= l.began)
  }

  predicate ThreadOk(cfg: Config, cells: seq<Cell>, isFull: nat, frozen: bool, removed: nat, gone: map<Key, nat>,
                     fullKeys: set<Key>, t: nat, l: Local)
    requires |cells| == cfg.cap
  {
    match l
    case Idle => true
    case Ins(_, _, _, _) => InsertOk(cfg, cells, isFull, frozen, t, l)
    case Find(k, j, absent) => j < cfg.cap && (absent || Prefix(cfg, cells, k, j))
    case Erase(k, j) => j < cfg.cap && Prefix(cfg, cells, k, j)
    case EraseCas(_, _, began) => began <= removed && CasOk(cfg, cells, gone, l)
    case Done(k, r) =>
      && (r.NotFound? || r.NotRemoved? ==> r.absent)
      && (r.Full? ==> k in fullKeys)
  }

  predicate Threads(cfg: Config, s: State)
    requires |s.cells| == cfg.cap
  {
    forall t :: 0 <= t < |s.threads| ==>
      ThreadOk(cfg, s.cells, s.isFull, s.frozen, s.removed, s.gone, s.fullKeys, t, s.threads[t])
  }

  /** A locked cell belongs to the thread building in it. */
  predicate LockAt(cfg: Config, cells: seq<Cell>, threads: seq<Local>, c: nat)
    requires |cells| == cfg.cap && c < cfg.cap
  {
    cells[c].Locked? ==>
      var t := cells[c].holder;
      t < |threads| && threads[t].Ins? && threads[t].pc.Build? && threads[t].j < cfg.cap
      && Path(cfg, threads[t].key, threads[t].j) == c
  }

  predicate Locks(cfg: Config, cells: seq<Cell>, threads: seq<Local>)
    requires |cells| == cfg.cap
  {
    forall c :: 0 <= c < cfg.cap ==> LockAt(cfg, cells, threads, c)
  }

  /** A refused key is not there, and either nobody can add keys any more or its
      whole way is settled. */
  predicate Blocked(cfg: Config, cells: seq<Cell>, frozen: bool, k: Key)
    requires |cells| == cfg.cap
  {
    Absent(cells, k) && (frozen || Prefix(cfg, cells, k, cfg.cap))
  }

  predicate Refused(cfg: Config, cells: seq<Cell>, frozen: bool, fullKeys: set<Key>)
    requires |cells| == cfg.cap
  {
    forall k :: k in fullKeys ==> Blocked(cfg, cells, frozen, k)
  }

  predicate Counters(s: State) {
    && s.pending == Count(s.threads, Pending)
    && s.isFull <= 2 && (s.isFull == 2 ==> s.frozen) && (s.frozen ==> s.isFull > 0)
  }

  ghost predicate Inv(cfg: Config, s: State) {
    && cfg.cap > 0 && |s.cells| == cfg.cap
    && Chain(cfg, s.cells)
    && Threads(cfg, s)
    && Locks(cfg, s.cells, s.threads)
    && Refused(cfg, s.cells, s.frozen, s.fullKeys)
    && Counters(s)
  }

  // ----- What the invariant says about keys -----

  /** A hole on the way of `k`, or a settled way to the end: `k` is not in the array. */
  lemma AbsentBehindHole(cfg: Config, cells: seq<Cell>, k: Key, j: nat)
    requires |cells| == cfg.cap && Chain(cfg, cells) && Prefix(cfg, cells, k, j)
    requires j < cfg.cap ==> cells[Path(cfg, k, j)].Empty? || cells[Path(cfg, k, j)].Locked?
    ensures Absent(cells, k)
  {
    forall c | 0 <= c < |cells|
      ensures !(cells[c].Real? && cells[c].key == k)
    {
      assert ChainAt(cfg, cells, c);
    }
  }

  lemma OneCellPerKey(cfg: Config, cells: seq<Cell>, c: nat, d: nat)
    requires |cells| == cfg.cap && Chain(cfg, cells) && c < cfg.cap && d < cfg.cap
    requires cells[c].Real? && cells[d].Real? && cells[c].key == cells[d].key
    ensures c == d
  {
    assert ChainAt(cfg, cells, c) && ChainAt(cfg, cells, d);
  }

  // ----- Changing one cell -----

  /** How a cell may change: settled stays settled. */
  predicate Later(a: Cell, b: Cell) {
    (a.Erased? ==> b.Erased?) && (a.Real? ==> b == a || b.Erased?)
  }

  lemma PrefixKept(cfg: Config, cells: seq<Cell>, c: nat, x: Cell, k: Key, n: nat)
    requires |cells| == cfg.cap && c < cfg.cap && Later(cells[c], x) && Prefix(cfg, cells, k, n)
    ensures Prefix(cfg, cells[c := x], k, n)
  {
  }

  lemma ChainKept(cfg: Config, cells: seq<Cell>, c: nat, x: Cell)
    requires |cells| == cfg.cap && c < cfg.cap && Later(cells[c], x) && Chain(cfg, cells)
    requires x.Real? ==> x.probe < cfg.cap && Path(cfg, x.key, x.probe) == c && Prefix(cfg, cells, x.key, x.probe)
    ensures Chain(cfg, cells[c := x])
  {
    var cells' := cells[c := x];
    forall d | 0 <= d < cfg.cap
      ensures ChainAt(cfg, cells', d)
    {
      assert ChainAt(cfg, cells, d);
      if cells'[d].Real? {
        PrefixKept(cfg, cells, c, x, cells'[d].key, cells'[d].probe);
      }
    }
  }

  lemma ThreadKept(cfg: Config, cells: seq<Cell>, c: nat, x: Cell, isFull: nat, frozen: bool, removed: nat,
                   gone: map<Key, nat>, fullKeys: set<Key>, u: nat, l: Local)
    requires |cells| == cfg.cap && c < cfg.cap && Later(cells[c], x)
    requires ThreadOk(cfg, cells, isFull, frozen, removed, gone, fullKeys, u, l)
    requires !(cells[c].Real? && x.Erased?) && cells[c] != Locked(u)
    ensures ThreadOk(cfg, cells[c := x], isFull, frozen, removed, gone, fullKeys, u, l)
  {
    hide Prefix;
    if (l.Ins? || l.Erase? || (l.Find? && !l.absent)) {
      PrefixKept(cfg, cells, c, x, l.key, l.j);
    }
  }

  /** The same when the cell's key was erased. */
  lemma ThreadKeptErased(cfg: Config, cells: seq<Cell>, c: nat, isFull: nat, frozen: bool, removed: nat,
                         gone: map<Key, nat>, fullKeys: set<Key>, u: nat, l: Local)
    requires |cells| == cfg.cap && c < cfg.cap && cells[c].Real?
    requires ThreadOk(cfg, cells, isFull, frozen, removed, gone, fullKeys, u, l)
    ensures var gone' := gone[cells[c].key := removed];
      ThreadOk(cfg, cells[c := Erased], isFull, frozen, removed + 1, gone', fullKeys, u, l)
  {
    hide Prefix;
    if (l.Ins? || l.Erase? || (l.Find? && !l.absent)) {
      PrefixKept(cfg, cells, c, Erased, l.key, l.j);
    }
  }

  lemma RefusedKept(cfg: Config, cells: seq<Cell>, c: nat, x: Cell, frozen: bool, fullKeys: set<Key>)
    requires |cells| == cfg.cap && c < cfg.cap && Later(cells[c], x) && Refused(cfg, cells, frozen, fullKeys)
    requires x.Real? ==> x.key !in fullKeys
    ensures Refused(cfg, cells[c := x], frozen, fullKeys)
  {
    forall k | k in fullKeys
      ensures Blocked(cfg, cells[c := x], frozen, k)
    {
      assert Blocked(cfg, cells, frozen, k);
      if !frozen {
        PrefixKept(cfg, cells, c, x, k, cfg.cap);
      }
    }
  }

  // ----- Steps that leave the cells alone -----

  predicate Adding(l: Local) { l.Ins? && (l.pc.TryLock? || l.pc.Build?) }

  lemma ThreadMonotone(cfg: Config, cells: seq<Cell>, f: nat, f': nat, z: bool, z': bool, removed: nat,
                       gone: map<Key, nat>, fk: set<Key>, fk': set<Key>, u: nat, l: Local)
    requires |cells| == cfg.cap && ThreadOk(cfg, cells, f, z, removed, gone, fk, u, l)
    requires (f > 0 ==> f' > 0) && (z ==> z') && fk <= fk' && (z != z' ==> !Adding(l))
    ensures ThreadOk(cfg, cells, f', z', removed, gone, fk', u, l)
  {
    hide Prefix;
  }

  lemma {:induction false} NonePending(threads: seq<Local>, u: nat)
    requires Count(threads, Pending) == 0 && u < |threads|
    ensures !Pending(threads[u])
  {
    if Pending(threads[u]) {
      CountPositive(threads, u, Pending);
    }
  }

  lemma LocksKept(cfg: Config, cells: seq<Cell>, threads: seq<Local>, t: nat, l: Local)
    requires |cells| == cfg.cap && t < |threads| && Locks(cfg, cells, threads)
    requires !(threads[t].Ins? && threads[t].pc.Build?)
    ensures Locks(cfg, cells, threads[t := l])
  {
    var threads' := threads[t := l];
    forall c | 0 <= c < cfg.cap
      ensures LockAt(cfg, cells, threads', c)
    {
      assert LockAt(cfg, cells, threads, c);
    }
  }

  lemma RefusedGrows(cfg: Config, cells: seq<Cell>, z: bool, z': bool, fk: set<Key>, k: Key)
    requires |cells| == cfg.cap && Refused(cfg, cells, z, fk) && (z ==> z') && Blocked(cfg, cells, z', k)
    ensures Refused(cfg, cells, z', fk + {k})
  {
    forall q | q in fk + {k}
      ensures Blocked(cfg, cells, z', q)
    {
      assert q in fk ==> Blocked(cfg, cells, z, q);
    }
  }

  /** Thread `t` is at `l`, and the counters and flags are as given. */
  function Moved(s: State, t: nat, l: Local, p: nat, f: nat, z: bool, fk: set<Key>): State
    requires t < |s.threads|
  {
    s.(threads := s.threads[t := l], pending := p, isFull := f, frozen := z, fullKeys := fk)
  }

  /** Thread `t` moves on; flags and counters may change, the cells do not. */
  lemma QuietInv(cfg: Config, s: State, t: nat, l: Local, p: nat, f: nat, z: bool, fk: set<Key>)
    requires Inv(cfg, s) && t < |s.threads| && !(s.threads[t].Ins? && s.threads[t].pc.Build?)
    requires ThreadOk(cfg, s.cells, f, z, s.removed, s.gone, fk, t, l)
    requires p == s.pending - (if Pending(s.threads[t]) then 1 else 0) + (if Pending(l) then 1 else 0)
    requires f == s.isFull || 0 < f <= 2
    requires (f == 2 ==> z) && (z ==> f > 0) && (z == s.frozen || (z && s.pending == 0))
    requires s.fullKeys <= fk && Refused(cfg, s.cells, z, fk)
    ensures Inv(cfg, Moved(s, t, l, p, f, z, fk))
  {
    hide ThreadOk, Chain, Refused, Locks, Pending;
    var s' := Moved(s, t, l, p, f, z, fk);
    CountUpdate(s.threads, t, l, Pending);
    LocksKept(cfg, s.cells, s.threads, t, l);
    forall u | 0 <= u < |s'.threads|
      ensures ThreadOk(cfg, s'.cells, f, z, s'.removed, s'.gone, fk, u, s'.threads[u])
    {
      if u != t {
        if z != s.frozen {
          NotAdding(s.threads, u);
        }
        ThreadMonotone(cfg, s.cells, s.isFull, f, s.frozen, z, s.removed, s.gone, s.fullKeys, fk, u, s.threads[u]);
      }
    }
  }

  lemma NotAdding(threads: seq<Local>, u: nat)
    requires Count(threads, Pending) == 0 && u < |threads|
    ensures !Adding(threads[u])
  {
    NonePending(threads, u);
  }

  // ----- Every step keeps the invariant -----

  lemma InvThread(cfg: Config, s: State, t: nat)
    requires Inv(cfg, s) && t < |s.threads|
    ensures cfg.cap > 0 && |s.cells| == cfg.cap
    ensures ThreadOk(cfg, s.cells, s.isFull, s.frozen, s.removed, s.gone, s.fullKeys, t, s.threads[t])
    ensures s.threads[t].Ins? ==> InsertOk(cfg, s.cells, s.isFull, s.frozen, t, s.threads[t])
    ensures s.threads[t].EraseCas? ==> CasOk(cfg, s.cells, s.gone, s.threads[t])
    ensures Refused(cfg, s.cells, s.frozen, s.fullKeys) && Chain(cfg, s.cells) && Counters(s)
    ensures Pending(s.threads[t]) ==> s.pending > 0
  {
    if Pending(s.threads[t]) {
      CountPositive(s.threads, t, Pending);
    }
  }

  /** The thread's probe met another key, or an erased one. */
  lemma PrefixGrows(cfg: Config, cells: seq<Cell>, k: Key, j: nat)
    requires |cells| == cfg.cap && j < cfg.cap && Prefix(cfg, cells, k, j) && Settled(cells[Path(cfg, k, j)], k)
    ensures Prefix(cfg, cells, k, j + 1)
  {
  }

  lemma StartInv(cfg: Config, s: State, t: nat, l: Local)
    requires Inv(cfg, s) && t < |s.threads| && (s.threads[t].Idle? || s.threads[t].Done?)
    requires (l.Ins? && l.pc.LoadCell? && l.j == 0) || (l.Find? && l.j == 0) || (l.Erase? && l.j == 0)
    ensures Inv(cfg, s.(threads := s.threads[t := l]))
  {
    InvThread(cfg, s, t);
    QuietInv(cfg, s, t, l, s.pending, s.isFull, s.frozen, s.fullKeys);
    assert s.(threads := s.threads[t := l]) == Moved(s, t, l, s.pending, s.isFull, s.frozen, s.fullKeys);
  }

  /** An insert on the way out of a full array. */
  predicate LeavingFull(pc: Pc) { pc.FullDown? || pc.SpinFull? || pc.SpinPending? || pc.StoreFull? }

  lemma LeavingFullInv(cfg: Config, s: State, t: nat, throws: bool, mark: bool)
    requires Inv(cfg, s) && t < |s.threads| && s.threads[t].Ins? && s.threads[t].j < cfg.cap
    requires LeavingFull(s.threads[t].pc)
    ensures Inv(cfg, InsertStep(cfg, s, t, s.threads[t], throws, mark))
  {
    hide Inv, Chain, Refused, Prefix, Counters;
    InvThread(cfg, s, t);
    CountersSay(s);
    var s' := InsertStep(cfg, s, t, s.threads[t], throws, mark);
    var l := s'.threads[t];
    assert s' == Moved(s, t, l, s'.pending, s'.isFull, s'.frozen, s.fullKeys);
    RefusedStays(cfg, s.cells, s.frozen, s'.frozen, s.fullKeys);
    QuietInv(cfg, s, t, l, s'.pending, s'.isFull, s'.frozen, s.fullKeys);
  }

  /** An insert's other steps that touch no cell and refuse nothing. */
  lemma InsertQuietInv(cfg: Config, s: State, t: nat, throws: bool, mark: bool)
    requires Inv(cfg, s) && t < |s.threads| && s.threads[t].Ins? && s.threads[t].j < cfg.cap
    requires !LeavingFull(s.threads[t].pc)
    requires !s.threads[t].pc.TryLock? && !s.threads[t].pc.Build? && !s.threads[t].pc.Recheck?
    requires !s.threads[t].pc.Compare?
    ensures Inv(cfg, InsertStep(cfg, s, t, s.threads[t], throws, mark))
  {
    hide Inv, Chain, Refused, Prefix, Counters;
    InvThread(cfg, s, t);
    CountersSay(s);
    var s' := InsertStep(cfg, s, t, s.threads[t], throws, mark);
    var l := s'.threads[t];
    assert s' == Moved(s, t, l, s'.pending, s'.isFull, s.frozen, s.fullKeys).(entries := s'.entries);
    QuietInv(cfg, s, t, l, s'.pending, s'.isFull, s.frozen, s.fullKeys);
    EntriesFree(cfg, Moved(s, t, l, s'.pending, s'.isFull, s.frozen, s.fullKeys), s'.entries);
  }

  /** The invariant does not speak of the entry count. */
  lemma EntriesFree(cfg: Config, s: State, entries: nat)
    requires Inv(cfg, s)
    ensures Inv(cfg, s.(entries := entries))
  {
    hide Chain, Refused, Prefix, ThreadOk, LockAt;
  }

  lemma CountersSay(s: State)
    requires Counters(s)
    ensures s.isFull <= 2 && (s.isFull == 2 ==> s.frozen) && (s.frozen ==> s.isFull > 0)
  {
  }

  lemma RefusedStays(cfg: Config, cells: seq<Cell>, z: bool, z': bool, fk: set<Key>)
    requires |cells| == cfg.cap && Refused(cfg, cells, z, fk) && (z ==> z')
    ensures Refused(cfg, cells, z', fk)
  {
    forall k | k in fk ensures Blocked(cfg, cells, z', k) {
      assert Blocked(cfg, cells, z, k);
    }
  }

  /** The two places where an insert is refused. */
  lemma RecheckInv(cfg: Config, s: State, t: nat, throws: bool, mark: bool)
    requires Inv(cfg, s) && t < |s.threads| && s.threads[t].Ins? && s.threads[t].j < cfg.cap && s.threads[t].pc.Recheck?
    ensures Inv(cfg, InsertStep(cfg, s, t, s.threads[t], throws, mark))
  {
    hide Inv, Chain, Refused, Prefix, Counters;
    InvThread(cfg, s, t);
    CountersSay(s);
    var l := s.threads[t];
    var s' := InsertStep(cfg, s, t, l, throws, mark);
    if s.cells[Path(cfg, l.key, l.j)].Empty? {
      AbsentBehindHole(cfg, s.cells, l.key, l.j);
      RefusedGrows(cfg, s.cells, s.frozen, s.frozen, s.fullKeys, l.key);
    }
    QuietInv(cfg, s, t, s'.threads[t], s'.pending, s'.isFull, s'.frozen, s'.fullKeys);
    assert s' == Moved(s, t, s'.threads[t], s'.pending, s'.isFull, s'.frozen, s'.fullKeys);
  }

  lemma CompareInv(cfg: Config, s: State, t: nat, throws: bool, mark: bool)
    requires Inv(cfg, s) && t < |s.threads| && s.threads[t].Ins? && s.threads[t].j < cfg.cap && s.threads[t].pc.Compare?
    ensures Inv(cfg, InsertStep(cfg, s, t, s.threads[t], throws, mark))
  {
    hide Inv, Chain, Refused, Prefix, Counters;
    InvThread(cfg, s, t);
    CountersSay(s);
    var l := s.threads[t];
    var s' := InsertStep(cfg, s, t, l, throws, mark);
    if Settled(s.cells[Path(cfg, l.key, l.j)], l.key) {
      PrefixGrows(cfg, s.cells, l.key, l.j);
      if l.j + 1 >= cfg.cap {
        AbsentBehindHole(cfg, s.cells, l.key, cfg.cap);
        RefusedGrows(cfg, s.cells, s.frozen, s.frozen, s.fullKeys, l.key);
      }
    }
    QuietInv(cfg, s, t, s'.threads[t], s'.pending, s'.isFull, s'.frozen, s'.fullKeys);
    assert s' == Moved(s, t, s'.threads[t], s'.pending, s'.isFull, s'.frozen, s'.fullKeys);
  }

  lemma FindInv(cfg: Config, s: State, t: nat)
    requires Inv(cfg, s) && t < |s.threads| && s.threads[t].Find? && s.threads[t].j < cfg.cap
    ensures Inv(cfg, s.(threads := s.threads[t := FindStep(cfg, s, s.threads[t])]))
  {
    hide Inv, Chain, Refused, Prefix, Counters, Absent;
    InvThread(cfg, s, t);
    CountersSay(s);
    var l := s.threads[t];
    var x := s.cells[Path(cfg, l.key, l.j)];
    var l' := FindStep(cfg, s, l);
    if !l.absent && (x.Empty? || x.Locked?) {
      AbsentBehindHole(cfg, s.cells, l.key, l.j);
    } else if !l.absent && Settled(x, l.key) {
      PrefixGrows(cfg, s.cells, l.key, l.j);
      if l.j + 1 >= cfg.cap {
        AbsentBehindHole(cfg, s.cells, l.key, cfg.cap);
      }
    }
    QuietInv(cfg, s, t, l', s.pending, s.isFull, s.frozen, s.fullKeys);
    assert s.(threads := s.threads[t := l']) == Moved(s, t, l', s.pending, s.isFull, s.frozen, s.fullKeys);
  }

  lemma EraseInv(cfg: Config, s: State, t: nat)
    requires Inv(cfg, s) && t < |s.threads| && s.threads[t].Erase? && s.threads[t].j < cfg.cap
    ensures Inv(cfg, s.(threads := s.threads[t := EraseStep(cfg, s, s.threads[t])]))
  {
    hide Inv, Chain, Refused, Prefix, Counters, Absent;
    InvThread(cfg, s, t);
    CountersSay(s);
    var l := s.threads[t];
    var x := s.cells[Path(cfg, l.key, l.j)];
    var l' := EraseStep(cfg, s, l);
    if x.Empty? || x.Locked? {
      AbsentBehindHole(cfg, s.cells, l.key, l.j);
    } else if Settled(x, l.key) {
      PrefixGrows(cfg, s.cells, l.key, l.j);
      if l.j + 1 >= cfg.cap {
        AbsentBehindHole(cfg, s.cells, l.key, cfg.cap);
      }
    }
    QuietInv(cfg, s, t, l', s.pending, s.isFull, s.frozen, s.fullKeys);
    assert s.(threads := s.threads[t := l']) == Moved(s, t, l', s.pending, s.isFull, s.frozen, s.fullKeys);
  }

  // ----- The steps that write a cell -----

  /** The other threads when thread `t` rewrites its own cell. */
  lemma OwnCellThreads(cfg: Config, s: State, t: nat, l: Local, c: nat, x: Cell)
    requires Inv(cfg, s) && t < |s.threads| && c < cfg.cap && (s.cells[c].Empty? || s.cells[c] == Locked(t))
    requires ThreadOk(cfg, s.cells[c := x], s.isFull, s.frozen, s.removed, s.gone, s.fullKeys, t, l)
    ensures Threads(cfg, s.(threads := s.threads[t := l], cells := s.cells[c := x]))
  {
    hide ThreadOk, Chain, Locks, Refused, Counters;
    forall u | 0 <= u < |s.threads| && u != t
      ensures ThreadOk(cfg, s.cells[c := x], s.isFull, s.frozen, s.removed, s.gone, s.fullKeys, u, s.threads[u])
    {
      ThreadKept(cfg, s.cells, c, x, s.isFull, s.frozen, s.removed, s.gone, s.fullKeys, u, s.threads[u]);
    }
  }

  /** The locks, too: `t` builds in no cell but its own. */
  lemma OwnCellLocks(cfg: Config, cells: seq<Cell>, threads: seq<Local>, t: nat, l: Local, c: nat, x: Cell)
    requires |cells| == cfg.cap && Locks(cfg, cells, threads) && t < |threads| && c < cfg.cap && threads[t].Ins?
    requires threads[t].pc.Build? ==> threads[t].j < cfg.cap && Path(cfg, threads[t].key, threads[t].j) == c
    requires x.Locked? ==> x.holder == t && l.Ins? && l.pc.Build? && l.j < cfg.cap && Path(cfg, l.key, l.j) == c
    ensures Locks(cfg, cells[c := x], threads[t := l])
  {
    var cells', threads' := cells[c := x], threads[t := l];
    forall d | 0 <= d < cfg.cap
      ensures LockAt(cfg, cells', threads', d)
    {
      assert LockAt(cfg, cells, threads, d);
    }
  }

  /** Thread `t` rewrites its own cell: empty, or locked by `t`. */
  lemma OwnCellInv(cfg: Config, s: State, t: nat, l: Local, c: nat, x: Cell)
    requires Inv(cfg, s) && t < |s.threads| && c < cfg.cap && s.threads[t].Ins?
    requires s.cells[c].Empty? || s.cells[c] == Locked(t)
    requires s.threads[t].pc.Build? ==> s.threads[t].j < cfg.cap && Path(cfg, s.threads[t].key, s.threads[t].j) == c
    requires x.Locked? ==> x.holder == t && l.Ins? && l.pc.Build? && l.j < cfg.cap && Path(cfg, l.key, l.j) == c
    requires x.Real? ==> x.probe < cfg.cap && Path(cfg, x.key, x.probe) == c && Prefix(cfg, s.cells, x.key, x.probe)
    requires x.Real? ==> x.key !in s.fullKeys
    requires Pending(l) && Pending(s.threads[t])
    requires ThreadOk(cfg, s.cells[c := x], s.isFull, s.frozen, s.removed, s.gone, s.fullKeys, t, l)
    ensures Inv(cfg, s.(threads := s.threads[t := l], cells := s.cells[c := x]))
  {
    hide Chain, Threads, Locks, Refused, Pending, Path;
    CountUpdate(s.threads, t, l, Pending);
    OwnCellThreads(cfg, s, t, l, c, x);
    OwnCellLocks(cfg, s.cells, s.threads, t, l, c, x);
    ChainKept(cfg, s.cells, c, x);
    RefusedKept(cfg, s.cells, c, x, s.frozen, s.fullKeys);
  }

  lemma TryLockInv(cfg: Config, s: State, t: nat, throws: bool, mark: bool)
    requires Inv(cfg, s) && t < |s.threads| && s.threads[t].Ins? && s.threads[t].j < cfg.cap && s.threads[t].pc.TryLock?
    ensures Inv(cfg, InsertStep(cfg, s, t, s.threads[t], throws, mark))
  {
    hide Inv, Chain, Refused, Prefix, Counters;
    InvThread(cfg, s, t);
    CountersSay(s);
    var l := s.threads[t];
    var c := Path(cfg, l.key, l.j);
    if s.cells[c].Empty? {
      PrefixKept(cfg, s.cells, c, Locked(t), l.key, l.j);
      OwnCellInv(cfg, s, t, l.(pc := Build), c, Locked(t));
    } else {
      var l' := l.(pc := LostDown);
      QuietInv(cfg, s, t, l', s.pending, s.isFull, s.frozen, s.fullKeys);
      assert s.(threads := s.threads[t := l']) == Moved(s, t, l', s.pending, s.isFull, s.frozen, s.fullKeys);
    }
  }

  /** A refused key is never the one being built: its whole way would be settled. */
  lemma BuiltKeyNotRefused(cfg: Config, s: State, t: nat)
    requires Inv(cfg, s) && t < |s.threads| && s.threads[t].Ins? && s.threads[t].pc.Build?
    ensures s.threads[t].key !in s.fullKeys
  {
    InvThread(cfg, s, t);
  }

  lemma BuildInv(cfg: Config, s: State, t: nat, throws: bool, mark: bool)
    requires Inv(cfg, s) && t < |s.threads| && s.threads[t].Ins? && s.threads[t].j < cfg.cap && s.threads[t].pc.Build?
    ensures Inv(cfg, InsertStep(cfg, s, t, s.threads[t], throws, mark))
  {
    hide Inv, Chain, Refused, Prefix, Counters;
    InvThread(cfg, s, t);
    BuiltKeyNotRefused(cfg, s, t);
    var l := s.threads[t];
    var c := Path(cfg, l.key, l.j);
    var x := if throws then Empty else Real(l.key, l.value, l.j);
    PrefixKept(cfg, s.cells, c, x, l.key, l.j);
    OwnCellInv(cfg, s, t, l.(pc := if throws then ThrownDown else DoneDown), c, x);
  }

  lemma CasThreads(cfg: Config, s: State, t: nat, c: nat)
    requires Inv(cfg, s) && t < |s.threads| && c < cfg.cap && s.cells[c].Real?
    ensures var k := s.cells[c].key;
      Threads(cfg, s.(threads := s.threads[t := Done(k, Removed)], cells := s.cells[c := Erased],
                      gone := s.gone[k := s.removed], removed := s.removed + 1))
  {
    hide ThreadOk, Chain, Locks, Refused, Counters;
    var k := s.cells[c].key;
    var gone := s.gone[k := s.removed];
    DoneOk(cfg, s.cells[c := Erased], s.isFull, s.frozen, s.removed + 1, gone, s.fullKeys, t, k, Removed);
    forall u | 0 <= u < |s.threads| && u != t
      ensures ThreadOk(cfg, s.cells[c := Erased], s.isFull, s.frozen, s.removed + 1, gone, s.fullKeys, u, s.threads[u])
    {
      ThreadKeptErased(cfg, s.cells, c, s.isFull, s.frozen, s.removed, s.gone, s.fullKeys, u, s.threads[u]);
    }
  }

  lemma DoneOk(cfg: Config, cells: seq<Cell>, isFull: nat, frozen: bool, removed: nat, gone: map<Key, nat>,
               fullKeys: set<Key>, t: nat, k: Key, r: Result)
    requires |cells| == cfg.cap && !r.NotFound? && !r.NotRemoved? && !r.Full?
    ensures ThreadOk(cfg, cells, isFull, frozen, removed, gone, fullKeys, t, Done(k, r))
  {
  }

  lemma CasInv(cfg: Config, s: State, t: nat)
    requires Inv(cfg, s) && t < |s.threads| && s.threads[t].EraseCas? && s.threads[t].j < cfg.cap
    ensures Inv(cfg, CasStep(cfg, s, t, s.threads[t]))
  {
    var l := s.threads[t];
    InvThread(cfg, s, t);
    CountersSay(s);
    var c := Path(cfg, l.key, l.j);
    var x := s.cells[c];
    hide Chain, Threads, Locks, Refused, Path, ThreadOk;
    if x.Real? && x.key == l.key {
      CountUpdate(s.threads, t, Done(l.key, Removed), Pending);
      CasThreads(cfg, s, t, c);
      CasLocks(cfg, s.cells, s.threads, t, Done(l.key, Removed), c);
      ChainKept(cfg, s.cells, c, Erased);
      RefusedKept(cfg, s.cells, c, Erased, s.frozen, s.fullKeys);
    } else {
      var l' := Done(l.key, NotRemoved(l.key in s.gone && s.gone[l.key] >= l.began));
      NotRemovedOk(cfg, s.cells, s.isFull, s.frozen, s.removed, s.gone, s.fullKeys, t, l.key);
      QuietInv(cfg, s, t, l', s.pending, s.isFull, s.frozen, s.fullKeys);
      assert s.(threads := s.threads[t := l']) == Moved(s, t, l', s.pending, s.isFull, s.frozen, s.fullKeys);
    }
  }

  lemma NotRemovedOk(cfg: Config, cells: seq<Cell>, isFull: nat, frozen: bool, removed: nat, gone: map<Key, nat>,
                     fullKeys: set<Key>, t: nat, k: Key)
    requires |cells| == cfg.cap
    ensures ThreadOk(cfg, cells, isFull, frozen, removed, gone, fullKeys, t, Done(k, NotRemoved(true)))
  {
  }

  lemma CasLocks(cfg: Config, cells: seq<Cell>, threads: seq<Local>, t: nat, l: Local, c: nat)
    requires |cells| == cfg.cap && Locks(cfg, cells, threads) && t < |threads| && c < cfg.cap && threads[t].EraseCas?
    ensures Locks(cfg, cells[c := Erased], threads[t := l])
  {
    var cells', threads' := cells[c := Erased], threads[t := l];
    forall d | 0 <= d < cfg.cap
      ensures LockAt(cfg, cells', threads', d)
    {
      assert LockAt(cfg, cells, threads, d);
    }
  }

  lemma InsertInv(cfg: Config, s: State, t: nat, throws: bool, mark: bool)
    requires Inv(cfg, s) && t < |s.threads| && s.threads[t].Ins? && s.threads[t].j < cfg.cap
    ensures Inv(cfg, InsertStep(cfg, s, t, s.threads[t], throws, mark))
  {
    hide Inv, InsertStep;
    match s.threads[t].pc {
      case TryLock => TryLockInv(cfg, s, t, throws, mark);
      case Build => BuildInv(cfg, s, t, throws, mark);
      case Recheck => RecheckInv(cfg, s, t, throws, mark);
      case Compare => CompareInv(cfg, s, t, throws, mark);
      case _ =>
        if LeavingFull(s.threads[t].pc) {
          LeavingFullInv(cfg, s, t, throws, mark);
        } else {
          InsertQuietInv(cfg, s, t, throws, mark);
        }
    }
  }

  lemma ExecInv(cfg: Config, s: State, t: nat, a: Action)
    requires Inv(cfg, s)
    ensures Inv(cfg, Exec(cfg, s, t, a))
  {
    if t < |s.threads| {
      hide Inv, InsertStep, CasStep, FindStep, EraseStep;
      InvThread(cfg, s, t);
      var l := s.threads[t];
      match a {
        case StartInsert(k, v) => if l.Idle? || l.Done? { StartInv(cfg, s, t, Ins(LoadCell, k, v, 0)); }
        case StartFind(k) => if l.Idle? || l.Done? { StartInv(cfg, s, t, Find(k, 0, false)); }
        case StartErase(k) => if l.Idle? || l.Done? { StartInv(cfg, s, t, Erase(k, 0)); }
        case Go(throws, mark) =>
          if !l.Idle? && !l.Done? && l.j < cfg.cap {
            if l.Ins? {
              InsertInv(cfg, s, t, throws, mark);
            } else if l.Find? {
              FindInv(cfg, s, t);
            } else if l.Erase? {
              EraseInv(cfg, s, t);
            } else {
              CasInv(cfg, s, t);
            }
          }
      }
    }
  }

  lemma InitialInv(cfg: Config, n: nat)
    requires cfg.cap > 0
    ensures Inv(cfg, Initial(cfg, n))
  {
    var s := Initial(cfg, n);
    CountNone(s.threads, Pending);
  }

  lemma {:induction false} RunInv(cfg: Config, s: State, schedule: seq<(nat, Action)>)
    requires Inv(cfg, s)
    ensures Inv(cfg, Run(cfg, s, schedule))
  {
    if |schedule| > 0 {
      hide Inv, Exec;
      RunInv(cfg, s, schedule[..|schedule| - 1]);
      var last := schedule[|schedule| - 1];
      ExecInv(cfg, Run(cfg, s, schedule[..|schedule| - 1]), last.0, last.1);
    }
  }

  // ----- The theorems -----

  ghost predicate Reachable(cfg: Config, s: State) {
    cfg.cap > 0 && exists n: nat, schedule :: s == Run(cfg, Initial(cfg, n), schedule)
  }

  lemma ReachableInv(cfg: Config, s: State)
    requires Reachable(cfg, s)
    ensures Inv(cfg, s)
  {
    var n: nat, schedule :| s == Run(cfg, Initial(cfg, n), schedule);
    InitialInv(cfg, n);
    RunInv(cfg, Initial(cfg, n), schedule);
  }

  /** In every reachable state a key is in at most one cell, where its probes lead,
      and every cell before that on its way holds another key or an erased one. */
  lemma ProbeChain(cfg: Config, s: State, c: nat)
    requires Reachable(cfg, s) && c < |s.cells| && s.cells[c].Real?
    ensures |s.cells| == cfg.cap && s.cells[c].probe < cfg.cap && Path(cfg, s.cells[c].key, s.cells[c].probe) == c
    ensures Prefix(cfg, s.cells, s.cells[c].key, s.cells[c].probe)
    ensures forall d :: 0 <= d < |s.cells| && s.cells[d].Real? && s.cells[d].key == s.cells[c].key ==> d == c
  {
    ReachableInv(cfg, s);
    assert ChainAt(cfg, s.cells, c);
    forall d | 0 <= d < |s.cells| && s.cells[d].Real? && s.cells[d].key == s.cells[c].key
      ensures d == c
    {
      OneCellPerKey(cfg, s.cells, c, d);
    }
  }

  lemma StepKeepsRefused(cfg: Config, s: State, t: nat, a: Action)
    ensures s.fullKeys <= Exec(cfg, s, t, a).fullKeys
  {
  }

  lemma {:induction false} RunKeepsRefused(cfg: Config, s: State, schedule: seq<(nat, Action)>)
    ensures s.fullKeys <= Run(cfg, s, schedule).fullKeys
  {
    if |schedule| > 0 {
      hide Exec;
      RunKeepsRefused(cfg, s, schedule[..|schedule| - 1]);
      var last := schedule[|schedule| - 1];
      StepKeepsRefused(cfg, Run(cfg, s, schedule[..|schedule| - 1]), last.0, last.1);
    }
  }

  /** Full is final: after an insert of `k` was refused, whatever the threads do, `k` is
      never in the array. */
  lemma FullIsFinal(cfg: Config, s: State, t: nat, k: Key, more: seq<(nat, Action)>)
    requires Reachable(cfg, s) && t < |s.threads| && s.threads[t] == Done(k, Full)
    ensures Absent(Run(cfg, s, more).cells, k)
  {
    ReachableInv(cfg, s);
    InvThread(cfg, s, t);
    RunInv(cfg, s, more);
    RunKeepsRefused(cfg, s, more);
    var s' := Run(cfg, s, more);
    assert k in s'.fullKeys;
    assert Blocked(cfg, s'.cells, s'.frozen, k);
  }

  /** `l` is building in cell `c`. */
  predicate Builds(cfg: Config, l: Local, c: nat) {
    l.Ins? && l.pc.Build? && l.j < cfg.cap && Path(cfg, l.key, l.j) == c
  }

  /** A locked cell has exactly one thread building in it, and as long as there is one
      no insert has got past the spin. */
  lemma LockedCellHasOneOwner(cfg: Config, s: State, c: nat)
    requires Reachable(cfg, s) && c < |s.cells| && s.cells[c].Locked?
    ensures !s.frozen && s.cells[c].holder < |s.threads| && Builds(cfg, s.threads[s.cells[c].holder], c)
    ensures forall u :: 0 <= u < |s.threads| && Builds(cfg, s.threads[u], c) ==> u == s.cells[c].holder
  {
    ReachableInv(cfg, s);
    assert LockAt(cfg, s.cells, s.threads, c);
    InvThread(cfg, s, s.cells[c].holder);
    forall u | 0 <= u < |s.threads| && Builds(cfg, s.threads[u], c)
      ensures u == s.cells[c].holder
    {
      InvThread(cfg, s, u);
    }
  }

  // ----- The array as a set of keys -----

  /** A key is there exactly between the step that puts it in and the one that erases
      it; every other step leaves the set of keys alone. */
  predicate Adds(s: State, t: nat, a: Action, k: Key) {
    t < |s.threads| && a.Go? && !a.throws && s.threads[t].Ins? && s.threads[t].pc.Build? && s.threads[t].key == k
  }

  predicate Removes(s: State, t: nat, a: Action, k: Key) {
    t < |s.threads| && a.Go? && s.threads[t].EraseCas? && s.threads[t].key == k
  }

  lemma AbsentUpdate(cells: seq<Cell>, c: nat, x: Cell, k: Key)
    requires c < |cells|
    requires !(cells[c].Real? && cells[c].key == k) && !(x.Real? && x.key == k)
    ensures Absent(cells[c := x], k) <==> Absent(cells, k)
  {
    var cells' := cells[c := x];
    if !Absent(cells, k) {
      var d :| 0 <= d < |cells| && cells[d].Real? && cells[d].key == k;
      assert cells'[d] == cells[d];
    }
  }

  lemma ErasedIsAbsent(cfg: Config, cells: seq<Cell>, c: nat)
    requires |cells| == cfg.cap && Chain(cfg, cells) && c < cfg.cap && cells[c].Real?
    ensures Absent(cells[c := Erased], cells[c].key)
  {
    forall d | 0 <= d < cfg.cap && d != c
      ensures !(cells[d].Real? && cells[d].key == cells[c].key)
    {
      if cells[d].Real? && cells[d].key == cells[c].key {
        OneCellPerKey(cfg, cells, c, d);
      }
    }
  }

  lemma BuildAdds(cfg: Config, s: State, t: nat, mark: bool, k: Key)
    requires Inv(cfg, s) && t < |s.threads| && s.threads[t].Ins? && s.threads[t].pc.Build?
    ensures var s' := Exec(cfg, s, t, Go(false, mark));
      && (k == s.threads[t].key ==> Absent(s.cells, k) && !Absent(s'.cells, k))
      && (k != s.threads[t].key ==> (Absent(s.cells, k) <==> Absent(s'.cells, k)))
  {
    InvThread(cfg, s, t);
    var l := s.threads[t];
    var c := Path(cfg, l.key, l.j);
    AbsentBehindHole(cfg, s.cells, l.key, l.j);
    var s' := Exec(cfg, s, t, Go(false, mark));
    assert s'.cells[c] == Real(l.key, l.value, l.j);
    if k != l.key {
      AbsentUpdate(s.cells, c, Real(l.key, l.value, l.j), k);
    }
  }

  lemma CasRemoves(cfg: Config, s: State, t: nat, a: Action, k: Key)
    requires Inv(cfg, s) && t < |s.threads| && s.threads[t].EraseCas? && a.Go?
    ensures var s' := Exec(cfg, s, t, a);
      && (s'.threads[t] == Done(s.threads[t].key, Removed) && k == s.threads[t].key ==>
            !Absent(s.cells, k) && Absent(s'.cells, k))
      && (s'.threads[t] != Done(s.threads[t].key, Removed) || k != s.threads[t].key ==>
            (Absent(s.cells, k) <==> Absent(s'.cells, k)))
  {
    InvThread(cfg, s, t);
    var l := s.threads[t];
    var c := Path(cfg, l.key, l.j);
    if s.cells[c].Real? && s.cells[c].key == l.key {
      if k == l.key {
        ErasedIsAbsent(cfg, s.cells, c);
      } else {
        AbsentUpdate(s.cells, c, Erased, k);
      }
    }
  }

  lemma OtherStepsKeepKeys(cfg: Config, s: State, t: nat, a: Action, k: Key)
    requires Inv(cfg, s) && !(t < |s.threads| && a.Go? && s.threads[t].EraseCas?)
    requires !(t < |s.threads| && a.Go? && !a.throws && s.threads[t].Ins? && s.threads[t].pc.Build?)
    ensures Absent(s.cells, k) <==> Absent(Exec(cfg, s, t, a).cells, k)
  {
    hide Absent, Prefix, Chain, Refused, Counters, Inv, Path;
    if t < |s.threads| && s.threads[t].Ins? {
      InvThread(cfg, s, t);
      var l := s.threads[t];
      var c := Path(cfg, l.key, l.j);
      if s.cells[c].Empty? || s.cells[c].Locked? {
        AbsentUpdate(s.cells, c, Locked(t), k);
        AbsentUpdate(s.cells, c, Empty, k);
      }
    }
  }

  /** Every step, seen from the set of keys: the key a thread builds goes from absent to
      present, a successful erase takes its key from present to absent, and nothing
      else ever changes. */
  lemma StepsRefineSet(cfg: Config, s: State, t: nat, a: Action, k: Key)
    requires Reachable(cfg, s)
    ensures var s' := Exec(cfg, s, t, a);
      if Adds(s, t, a, k) then Absent(s.cells, k) && !Absent(s'.cells, k)
      else if Removes(s, t, a, k) && s'.threads[t] == Done(k, Removed) then !Absent(s.cells, k) && Absent(s'.cells, k)
      else Absent(s.cells, k) <==> Absent(s'.cells, k)
  {
    hide Exec, Absent;
    ReachableInv(cfg, s);
    if t < |s.threads| && a.Go? && s.threads[t].EraseCas? {
      CasRemoves(cfg, s, t, a, k);
    } else if t < |s.threads| && a.Go? && !a.throws && s.threads[t].Ins? && s.threads[t].pc.Build? {
      BuildAdds(cfg, s, t, a.mark, k);
    } else {
      OtherStepsKeepKeys(cfg, s, t, a, k);
    }
  }

  // ----- Searches never miss a key that is there -----

  /** In the rest of the run thread `t` only goes on with its call. */
  predicate OneCall(schedule: seq<(nat, Action)>, t: nat) {
    forall i :: 0 <= i < |schedule| && schedule[i].0 == t ==> schedule[i].1.Go?
  }

  /** `k` is in the array in every state before the last. */
  ghost predicate PresentThroughout(cfg: Config, s: State, schedule: seq<(nat, Action)>, k: Key) {
    forall i :: 0 <= i < |schedule| ==> !Absent(Run(cfg, s, schedule[..i]).cells, k)
  }

  lemma PresentBefore(cfg: Config, s: State, schedule: seq<(nat, Action)>, k: Key)
    requires |schedule| > 0 && PresentThroughout(cfg, s, schedule, k)
    ensures PresentThroughout(cfg, s, schedule[..|schedule| - 1], k)
    ensures !Absent(Run(cfg, s, schedule[..|schedule| - 1]).cells, k)
  {
    var less := schedule[..|schedule| - 1];
    forall i | 0 <= i < |less| ensures !Absent(Run(cfg, s, less[..i]).cells, k) {
      assert less[..i] == schedule[..i];
    }
  }

  lemma OtherThreads(cfg: Config, s: State, t: nat, u: nat, a: Action)
    requires t < |s.threads| && u != t
    ensures |Exec(cfg, s, u, a).threads| == |s.threads| && Exec(cfg, s, u, a).threads[t] == s.threads[t]
  {
    hide InsertStep, Path, FindStep, EraseStep;
    if u < |s.threads| && |s.cells| == cfg.cap && a.Go? && s.threads[u].Ins? && s.threads[u].j < cfg.cap {
      InsertMovesOne(cfg, s, u, s.threads[u], a.throws, a.mark, t);
    }
  }

  lemma InsertMovesOne(cfg: Config, s: State, t: nat, l: Local, throws: bool, mark: bool, u: nat)
    requires t < |s.threads| && u < |s.threads| && u != t && |s.cells| == cfg.cap && l.Ins? && l.j < cfg.cap
    ensures var s' := InsertStep(cfg, s, t, l, throws, mark);
      |s'.threads| == |s.threads| && s'.threads[u] == s.threads[u]
  {
    hide Path;
  }

  predicate Searching(l: Local, k: Key) {
    (l.Find? && l.key == k && !l.absent) || (l.Done? && l.key == k && l.result.Found?)
  }

  lemma SearchStep(cfg: Config, s: State, t: nat, k: Key, a: Action)
    requires Inv(cfg, s) && t < |s.threads| && a.Go? && Searching(s.threads[t], k) && !Absent(s.cells, k)
    ensures |Exec(cfg, s, t, a).threads| == |s.threads| && Searching(Exec(cfg, s, t, a).threads[t], k)
  {
    hide Absent, Inv;
    InvThread(cfg, s, t);
    ExecInv(cfg, s, t, a);
    var s' := Exec(cfg, s, t, a);
    InvThread(cfg, s', t);
  }

  /** A key that is in the array all through a find is found, however the other threads
      insert, erase and throw meanwhile. */
  lemma {:induction false} FindNeverMisses(cfg: Config, s: State, t: nat, k: Key, more: seq<(nat, Action)>)
    requires Inv(cfg, s) && t < |s.threads| && s.threads[t] == Find(k, 0, false)
    requires OneCall(more, t) && PresentThroughout(cfg, s, more, k)
    ensures t < |Run(cfg, s, more).threads| && Searching(Run(cfg, s, more).threads[t], k)
  {
    if |more| > 0 {
      hide Inv, Exec, Absent;
      var less, last := more[..|more| - 1], more[|more| - 1];
      PresentBefore(cfg, s, more, k);
      FindNeverMisses(cfg, s, t, k, less);
      RunInv(cfg, s, less);
      if last.0 == t {
        SearchStep(cfg, Run(cfg, s, less), t, k, last.1);
      } else {
        OtherThreads(cfg, Run(cfg, s, less), t, last.0, last.1);
      }
    }
  }

  /** Before the erase's compare-and-swap its cell still holds the key, unless the key
      has just been erased by another thread. */
  predicate Erasing(cfg: Config, s: State, l: Local, k: Key)
    requires |s.cells| == cfg.cap
  {
    || (l.Erase? && l.key == k)
    || (l.EraseCas? && l.key == k && l.j < cfg.cap
        && (Absent(s.cells, k) || (s.cells[Path(cfg, k, l.j)].Real? && s.cells[Path(cfg, k, l.j)].key == k)))
    || (l.Done? && l.key == k && l.result.Removed?)
  }

  lemma EraseOwnStep(cfg: Config, s: State, t: nat, k: Key, a: Action)
    requires Inv(cfg, s) && t < |s.threads| && a.Go? && Erasing(cfg, s, s.threads[t], k) && !Absent(s.cells, k)
    ensures var s' := Exec(cfg, s, t, a);
      |s'.threads| == |s.threads| && |s'.cells| == cfg.cap && Erasing(cfg, s', s'.threads[t], k)
  {
    hide Absent, Inv;
    InvThread(cfg, s, t);
    ExecInv(cfg, s, t, a);
    var s' := Exec(cfg, s, t, a);
    InvThread(cfg, s', t);
  }

  lemma CellsLater(cfg: Config, s: State, u: nat, a: Action, c: nat)
    requires Inv(cfg, s) && c < cfg.cap && s.cells[c].Real?
    ensures |Exec(cfg, s, u, a).cells| == cfg.cap
    ensures Exec(cfg, s, u, a).cells[c] == s.cells[c]
      || (Exec(cfg, s, u, a).cells[c] == Erased && Absent(Exec(cfg, s, u, a).cells, s.cells[c].key))
  {
    hide Absent, Chain, Refused, Prefix, Threads, Locks, Counters, Path;
    if u < |s.threads| {
      InvThread(cfg, s, u);
      ErasedIsAbsent(cfg, s.cells, c);
    }
  }

  lemma EraseOtherStep(cfg: Config, s: State, t: nat, k: Key, u: nat, a: Action)
    requires Inv(cfg, s) && t < |s.threads| && u != t && Erasing(cfg, s, s.threads[t], k) && !Absent(s.cells, k)
    ensures var s' := Exec(cfg, s, u, a);
      |s'.threads| == |s.threads| && |s'.cells| == cfg.cap && Erasing(cfg, s', s'.threads[t], k)
  {
    hide Absent, Exec;
    OtherThreads(cfg, s, t, u, a);
    ExecInv(cfg, s, u, a);
    if s.threads[t].EraseCas? {
      CellsLater(cfg, s, u, a, Path(cfg, k, s.threads[t].j));
    }
  }

  /** A key that is in the array until an erase of it returns is erased by that call. */
  lemma {:induction false} EraseNeverMisses(cfg: Config, s: State, t: nat, k: Key, more: seq<(nat, Action)>)
    requires Inv(cfg, s) && t < |s.threads| && s.threads[t] == Erase(k, 0)
    requires OneCall(more, t) && PresentThroughout(cfg, s, more, k)
    ensures var s' := Run(cfg, s, more);
      t < |s'.threads| && |s'.cells| == cfg.cap && Erasing(cfg, s', s'.threads[t], k)
  {
    if |more| > 0 {
      hide Inv, Exec, Absent;
      var less, last := more[..|more| - 1], more[|more| - 1];
      PresentBefore(cfg, s, more, k);
      EraseNeverMisses(cfg, s, t, k, less);
      RunInv(cfg, s, less);
      if last.0 == t {
        EraseOwnStep(cfg, Run(cfg, s, less), t, k, last.1);
      } else {
        EraseOtherStep(cfg, Run(cfg, s, less), t, k, last.0, last.1);
      }
    }
  }

  // ----- For callers that run many arrays -----

  /** A call in progress goes on with its key and value, or ends with an answer of its kind. */
  lemma CallGoesOn(cfg: Config, s: State, t: nat, a: Action)
    requires Inv(cfg, s) && t < |s.threads| && a.Go?
    ensures |Exec(cfg, s, t, a).threads| == |s.threads|
    ensures var l, l' := s.threads[t], Exec(cfg, s, t, a).threads[t];
      match l
      case Ins(_, k, v, _) =>
        (l'.Ins? && l'.key == k && l'.value == v) ||
        (l'.Done? && l'.key == k && (l'.result.Inserted? || l'.result.Existing? || l'.result.Full? || l'.result.Threw?))
      case Find(k, _, _) => l'.key == k && (l'.Find? || (l'.Done? && (l'.result.Found? || l'.result.NotFound?)))
      case Erase(k, _) => l'.key == k && (l'.Erase? || l'.EraseCas? || (l'.Done? && l'.result.NotRemoved?))
      case EraseCas(k, _, _) => l'.Done? && l'.key == k && (l'.result.Removed? || l'.result.NotRemoved?)
      case _ => l' == l
  {
    hide Inv, Path, Chain, Refused, Prefix;
    InvThread(cfg, s, t);
  }

  lemma KeepsThreadCount(cfg: Config, s: State, t: nat, a: Action)
    ensures |Exec(cfg, s, t, a).threads| == |s.threads|
  {
    hide InsertLocal, Path, FindStep, EraseStep;
  }

  lemma KeepsCellCount(cfg: Config, s: State, t: nat, a: Action)
    ensures |Exec(cfg, s, t, a).cells| == |s.cells|
  {
    hide InsertLocal, FindStep, EraseStep;
  }

  lemma StartsCall(cfg: Config, s: State, t: nat, a: Action)
    requires Inv(cfg, s) && t < |s.threads| && !a.Go? && (s.threads[t].Idle? || s.threads[t].Done?)
    ensures |Exec(cfg, s, t, a).threads| == |s.threads| && Exec(cfg, s, t, a).cells == s.cells
    ensures var l' := Exec(cfg, s, t, a).threads[t];
      match a
      case StartInsert(k, v) => l' == Ins(LoadCell, k, v, 0)
      case StartFind(k) => l' == Find(k, 0, false)
      case StartErase(k) => l' == Erase(k, 0)
      case _ => true
  {
    hide Inv;
    InvThread(cfg, s, t);
  }

  /** A key comes into the array only by the hand of a thread inserting it. */
  lemma OnlyInsertAdds(cfg: Config, s: State, t: nat, a: Action, k: Key)
    requires Inv(cfg, s) && Absent(s.cells, k) && !Absent(Exec(cfg, s, t, a).cells, k)
    ensures t < |s.threads| && s.threads[t].Ins? && s.threads[t].key == k
  {
    hide Exec, Absent;
    if t < |s.threads| && a.Go? && s.threads[t].EraseCas? {
      CasRemoves(cfg, s, t, a, k);
    } else if t < |s.threads| && a.Go? && !a.throws && s.threads[t].Ins? && s.threads[t].pc.Build? {
      BuildAdds(cfg, s, t, a.mark, k);
    } else {
      OtherStepsKeepKeys(cfg, s, t, a, k);
    }
  }

  lemma RefusedIsAbsent(cfg: Config, s: State, k: Key)
    requires Inv(cfg, s) && k in s.fullKeys
    ensures Absent(s.cells, k)
  {
    assert Blocked(cfg, s.cells, s.frozen, k);
  }

  lemma FullMeansRefused(cfg: Config, s: State, t: nat, k: Key)
    requires Inv(cfg, s) && t < |s.threads| && s.threads[t] == Done(k, Full)
    ensures k in s.fullKeys
  {
    InvThread(cfg, s, t);
  }

  /** Where a key is not, a find of it does not say so and an erase never tries. */
  lemma SearchInVain(cfg: Config, s: State, t: nat, a: Action, k: Key)
    requires Inv(cfg, s) && t < |s.threads| && a.Go? && Absent(s.cells, k)
    ensures |Exec(cfg, s, t, a).threads| == |s.threads|
    ensures var l, l' := s.threads[t], Exec(cfg, s, t, a).threads[t];
      && (l.Find? && l.key == k ==> (l'.Find? && l'.key == k) || (l'.Done? && l'.key == k && l'.result.NotFound?))
      && (l.Erase? && l.key == k ==> (l'.Erase? && l'.key == k) || (l'.Done? && l'.key == k && l'.result.NotRemoved?))
  {
    hide Path, Chain, Refused, Prefix;
    InvThread(cfg, s, t);
  }
}
