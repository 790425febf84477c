/** The insert-only hash map of folly (libs/folly/folly/AtomicUnorderedMap.h:267-312,
    383-390, 417-470): any number of threads run find and findOrConstruct, one access
    to shared memory per step. */
module UnorderedMap {
  import opened Common

  type Key = int
  type Value = int

  const EMPTY := 0
  const CONSTRUCTING := 1
  const LINKED := 2
  const MAX_TRIES := 1000

  /** What is fixed when the map is made: slots, hash function and slotMask_. */
  datatype Config = Config(n: nat, hash: Key -> nat, mask: nat)

  function Bucket(cfg: Config, k: Key): (b: nat)
    requires cfg.n > 0
    ensures b < cfg.n
  {
    BitAnd(cfg.hash(k), cfg.mask) % cfg.n
  }

  /** keyToSlotIdx, where a loop takes the residue. */
  method KeyToSlotIdx(cfg: Config, k: Key) returns (b: nat)
    requires cfg.n > 0
    ensures b == Bucket(cfg, k)
  {
    var h := BitAnd(cfg.hash(k), cfg.mask);
    b := h;
    ghost var q := 0;
    while b >= cfg.n
      invariant h == q * cfg.n + b
    {
      assert (q + 1) * cfg.n == q * cfg.n + cfg.n;
      b := b - cfg.n;
      q := q + 1;
    }
    DivModUnique(h, cfg.n, q, b);
  }

  // ----- Memory -----

  /** The slots: headAndState_ as one word, next_, the key and the value. History: `chains` are the
      nodes linked into each bucket, oldest first; `linkedAt` says where a slot is
      linked; `owner` which thread is constructing in it; `nodeOf` is the map itself, and
      `winner` says which thread linked a key. */
  datatype Mem = Mem(
    words: seq<nat>,
    next: seq<nat>,
    keys: seq<Key>,
    vals: seq<Value>,
    chains: seq<seq<nat>>,
    linkedAt: seq<Option<(nat, nat)>>,
    owner: seq<Option<nat>>,
    nodeOf: map<Key, nat>,
    winner: map<Key, nat>)

  function Head(w: nat): nat { w / 4 }

  function StateOf(w: nat): nat { w % 4 }

  /** What a find is for: a lookup; findOrConstruct's first look, after `prev` was
      loaded when the chain had `plen` nodes; or another look after a failed link. */
  datatype Call =
    | Lookup
    | First(prev: nat, plen: nat)
    | Again(prev: nat, plen: nat, idx: nat)

  /** `was`: whether the map held the key when the find loaded the head. */
  datatype Result =
    | Found(node: nat, was: bool)
    | Existing(node: nat)
    | New(node: nat)
    | BadAlloc
    | Threw

  /** Where a thread is: before the load of prev; before a find's load of the head;
      before comparing at `node`, the `pos`-th of `len` nodes; before the load and the
      compare-and-swap of an allocation; before writing the key and value, next_, the
      link, the two state updates. */
  datatype Local =
    | Idle
    | LoadPrev(key: Key)
    | FindHead(key: Key, call: Call)
    | Walk(key: Key, call: Call, node: nat, pos: nat, len: nat, was: bool)
    | Alloc(key: Key, prev: nat, plen: nat, tries: nat)
    | AllocCas(key: Key, prev: nat, plen: nat, tries: nat, cand: nat, seen: nat)
    | Construct(key: Key, prev: nat, plen: nat, idx: nat)
    | SetNext(key: Key, prev: nat, plen: nat, idx: nat)
    | Link(key: Key, prev: nat, plen: nat, idx: nat)
    | StateUp(key: Key, idx: nat)
    | Abort(key: Key, idx: nat, existing: nat)
    | Done(key: Key, result: Result)

  /** `args`: the value that the func of a thread's insert constructs. */
  datatype State = State(mem: Mem, threads: seq<Local>, args: seq<Value>)

  /** All slots zero, then slot 0 marked: it is the nil index and never allocated. */
  function Initial(cfg: Config, n: nat): State
    requires cfg.n > 0
  {
    State(
      Mem(seq(cfg.n, _ => 0)[0 := CONSTRUCTING], seq(cfg.n, _ => 0), seq(cfg.n, _ => 0), seq(cfg.n, _ => 0),
          seq(cfg.n, _ => []), seq(cfg.n, _ => None), seq(cfg.n, _ => None), map[], map[]),
      seq(n, _ => Idle),
      seq(n, _ => 0))
  }

  predicate Sized(cfg: Config, m: Mem) {
    && cfg.n > 0 && |m.words| == cfg.n && |m.next| == cfg.n && |m.keys| == cfg.n && |m.chains| == cfg.n
    && |m.linkedAt| == cfg.n && |m.owner| == cfg.n && |m.vals| == cfg.n
  }

  // ----- Steps -----

  /** A call begins, the thread does its next access, or the func that constructs its
      value throws; `cand` is the slot that allocationAttempt proposes when it chooses at random. */
  datatype Action = StartFind(k: Key) | StartInsert(k: Key, v: Value) | Go(cand: nat) | Throw

  /** The first tries are the bucket's own slot and those after it, as far as there are any. */
  const NEAR_TRIES := 8

  /** allocationAttempt; `cand` is the random slot. */
  function Attempt(cfg: Config, start: nat, tries: nat, cand: nat): nat {
    if tries < NEAR_TRIES && start + tries < cfg.n then start + tries else cand
  }

  function ArgOf(s: State, t: nat): Value { if t < |s.args| then s.args[t] else 0 }

  function WalkStep(cfg: Config, m: Mem, l: Local): Local
    requires Sized(cfg, m) && l.Walk? && l.node < cfg.n
  {
    if l.node == 0 then
      match l.call
      case Lookup => Done(l.key, Found(0, l.was))
      case First(prev, plen) => Alloc(l.key, prev, plen, 0)
      case Again(prev, plen, idx) => SetNext(l.key, prev, plen, idx)
    else if m.keys[l.node] == l.key then
      match l.call
      case Lookup => Done(l.key, Found(l.node, l.was))
      case First(_, _) => Done(l.key, Existing(l.node))
      case Again(_, _, idx) => Abort(l.key, idx, l.node)
    else Walk(l.key, l.call, m.next[l.node], if l.pos > 0 then l.pos - 1 else 0, l.len, l.was)
  }

  /** The slot's own state goes into the head word when it is its own bucket. */
  function LinkWord(b: nat, prev: nat, idx: nat): nat {
    4 * idx + (if b == idx then LINKED else StateOf(prev))
  }

  function LinkMem(cfg: Config, m: Mem, t: nat, l: Local): Mem
    requires Sized(cfg, m) && l.Link? && l.idx < cfg.n
  {
    var b := Bucket(cfg, l.key);
    m.(words := m.words[b := LinkWord(b, l.prev, l.idx)],
       chains := m.chains[b := m.chains[b] + [l.idx]],
       linkedAt := m.linkedAt[l.idx := Some((b, |m.chains[b]|))],
       owner := if b == l.idx then m.owner[l.idx := None] else m.owner,
       nodeOf := m.nodeOf[l.key := l.idx],
       winner := m.winner[l.key := t])
  }

  function ExecGo(cfg: Config, s: State, t: nat, cand: nat): State
    requires Sized(cfg, s.mem) && t < |s.threads|
  {
    var l, m := s.threads[t], s.mem;
    match l
    case Idle => s
    case Done(_, _) => s
    case LoadPrev(k) =>
      var b := Bucket(cfg, k);
      s.(threads := s.threads[t := FindHead(k, First(m.words[b], |m.chains[b]|))])
    case FindHead(k, call) =>
      var b := Bucket(cfg, k);
      s.(threads := s.threads[t := Walk(k, call, Head(m.words[b]), |m.chains[b]|, |m.chains[b]|, k in m.nodeOf)])
    case Walk(_, _, node, _, _, _) => if node < cfg.n then s.(threads := s.threads[t := WalkStep(cfg, m, l)]) else s
    case Alloc(k, prev, plen, tries) =>
      if tries >= MAX_TRIES then s.(threads := s.threads[t := Done(k, BadAlloc)])
      else
        var i := Attempt(cfg, Bucket(cfg, k), tries, cand);
        if i >= cfg.n then s
        else if StateOf(m.words[i]) == EMPTY then
          s.(threads := s.threads[t := AllocCas(k, prev, plen, tries, i, m.words[i])])
        else s.(threads := s.threads[t := Alloc(k, prev, plen, tries + 1)])
    case AllocCas(k, prev, plen, tries, i, seen) =>
      if i < cfg.n && m.words[i] == seen then
        s.(mem := m.(words := m.words[i := seen + CONSTRUCTING - EMPTY], owner := m.owner[i := Some(t)]),
           threads := s.threads[t := Construct(k, prev, plen, i)])
      else s.(threads := s.threads[t := Alloc(k, prev, plen, tries + 1)])
    case Construct(k, prev, plen, idx) =>
      if idx < cfg.n then
        s.(mem := m.(keys := m.keys[idx := k], vals := m.vals[idx := ArgOf(s, t)]),
           threads := s.threads[t := SetNext(k, prev, plen, idx)])
      else s
    case SetNext(k, prev, plen, idx) =>
      if idx < cfg.n then
        s.(mem := m.(next := m.next[idx := Head(prev)]), threads := s.threads[t := Link(k, prev, plen, idx)])
      else s
    case Link(k, prev, plen, idx) =>
      var b := Bucket(cfg, k);
      if idx >= cfg.n then s
      else if m.words[b] == prev then
        s.(mem := LinkMem(cfg, m, t, l),
           threads := s.threads[t := if b == idx then Done(k, New(idx)) else StateUp(k, idx)])
      else s.(threads := s.threads[t := FindHead(k, Again(m.words[b], |m.chains[b]|, idx))])
    case StateUp(k, idx) =>
      if idx < cfg.n then
        s.(mem := m.(words := m.words[idx := m.words[idx] + LINKED - CONSTRUCTING], owner := m.owner[idx := None]),
           threads := s.threads[t := Done(k, New(idx))])
      else s
    case Abort(k, idx, existing) =>
      if idx < cfg.n && m.words[idx] > 0 then
        s.(mem := m.(words := m.words[idx := m.words[idx] + EMPTY - CONSTRUCTING], owner := m.owner[idx := None]),
           threads := s.threads[t := Done(k, Existing(existing))])
      else s
  }

  /** A throwing func: the slot keeps its key and its mark, and nobody has it any more. */
  function ExecThrow(cfg: Config, s: State, t: nat): State
    requires Sized(cfg, s.mem) && t < |s.threads|
  {
    var l, m := s.threads[t], s.mem;
    if l.Construct? && l.idx < cfg.n then
      s.(mem := m.(keys := m.keys[l.idx := l.key], owner := m.owner[l.idx := None]),
         threads := s.threads[t := Done(l.key, Threw)])
    else s
  }

  function Exec(cfg: Config, s: State, t: nat, a: Action): State {
    if !Sized(cfg, s.mem) || t >= |s.threads| then s
    else
      match a
      case StartFind(k) =>
        if s.threads[t].Idle? || s.threads[t].Done? then s.(threads := s.threads[t := FindHead(k, Lookup)]) else s
      case StartInsert(k, v) =>
        if s.threads[t].Idle? || s.threads[t].Done? then
          s.(threads := s.threads[t := LoadPrev(k)], args := if t < |s.args| then s.args[t := v] else s.args)
        else s
      case Go(cand) => ExecGo(cfg, s, t, cand)
      case Throw => ExecThrow(cfg, s, t)
  }

  function Run(cfg: Config, s: State, schedule: seq<(nat, Action)>): State {
    if |schedule| == 0 then s
    else
      var last := schedule[|schedule| - 1];
      Exec(cfg, Run(cfg, s, schedule[..|schedule| - 1]), last.0, last.1)
  }

  // ----- The invariant -----

  /** The newest of the first `p` nodes of a chain, 0 if there is none. */
  function NodeAt(c: seq<nat>, p: nat): nat
    requires p <= |c|
  {
    if p == 0 then 0 else c[p - 1]
  }

  /** A linked slot: its place in its chain, its successor, and its key. */
  predicate LinkOk(cfg: Config, m: Mem, i: nat)
    requires Sized(cfg, m) && i < cfg.n
  {
    m.linkedAt[i].Some? ==>
      var (b, p) := m.linkedAt[i].value;
      && 0 < i && b < cfg.n && p < |m.chains[b]| && m.chains[b][p] == i && m.next[i] == NodeAt(m.chains[b], p)
      && Bucket(cfg, m.keys[i]) == b && m.keys[i] in m.nodeOf && m.nodeOf[m.keys[i]] == i
  }

  /** A bucket: its head is its newest node, and all its nodes are linked in it. */
  predicate BucketOk(cfg: Config, m: Mem, b: nat)
    requires Sized(cfg, m) && b < cfg.n
  {
    && Head(m.words[b]) == NodeAt(m.chains[b], |m.chains[b]|)
    && forall p :: 0 <= p < |m.chains[b]| ==> m.chains[b][p] < cfg.n && m.linkedAt[m.chains[b][p]] == Some((b, p))
  }

  predicate MapOk(cfg: Config, m: Mem, k: Key)
    requires Sized(cfg, m)
  {
    k in m.nodeOf ==> m.nodeOf[k] < cfg.n && m.linkedAt[m.nodeOf[k]].Some? && m.keys[m.nodeOf[k]] == k && k in m.winner
  }

  /** The slot a thread is constructing in. */
  function Holds(l: Local): Option<nat> {
    match l
    case FindHead(_, Again(_, _, idx)) => Some(idx)
    case Walk(_, Again(_, _, idx), _, _, _, _) => Some(idx)
    case Construct(_, _, _, idx) => Some(idx)
    case SetNext(_, _, _, idx) => Some(idx)
    case Link(_, _, _, idx) => Some(idx)
    case StateUp(_, idx) => Some(idx)
    case Abort(_, idx, _) => Some(idx)
    case _ => None
  }

  /** The state bits agree with who uses the slot. */
  predicate SlotOk(m: Mem, threads: seq<Local>, i: nat)
    requires i < |m.words| && i < |m.owner| && i < |m.linkedAt|
  {
    var st := StateOf(m.words[i]);
    && st <= LINKED
    && (st == EMPTY ==> m.owner[i].None? && m.linkedAt[i].None?)
    && (st == LINKED ==> m.owner[i].None? && m.linkedAt[i].Some?)
    && (st == CONSTRUCTING && m.linkedAt[i].Some? ==> m.owner[i].Some?)
    && (i == 0 ==> st == CONSTRUCTING && m.owner[i].None? && m.linkedAt[i].None?)
    && (m.owner[i].Some? ==> m.owner[i].value < |threads| && Holds(threads[m.owner[i].value]) == Some(i))
  }

  /** `prev` was the head word of a bucket when its chain had `plen` nodes. */
  predicate PrevOk(cfg: Config, m: Mem, k: Key, prev: nat, plen: nat)
    requires Sized(cfg, m)
  {
    var b := Bucket(cfg, k);
    plen <= |m.chains[b]| && Head(prev) == NodeAt(m.chains[b], plen)
  }

  /** Where in its bucket's chain a key is. */
  function PlaceOf(cfg: Config, m: Mem, k: Key): nat
    requires Sized(cfg, m) && k in m.nodeOf
  {
    if m.nodeOf[k] < cfg.n && m.linkedAt[m.nodeOf[k]].Some? then m.linkedAt[m.nodeOf[k]].value.1 else 0
  }

  /** `k` is not among the first `n` nodes. */
  predicate NotIn(cfg: Config, m: Mem, k: Key, n: nat)
    requires Sized(cfg, m)
  {
    k in m.nodeOf ==> PlaceOf(cfg, m, k) >= n
  }

  /** Slot `i` is in thread `t`'s hands and not linked. */
  predicate Own(cfg: Config, m: Mem, t: nat, i: nat)
    requires Sized(cfg, m)
  {
    i < cfg.n && m.owner[i] == Some(t) && m.linkedAt[i].None? && StateOf(m.words[i]) == CONSTRUCTING
  }

  predicate CallOk(cfg: Config, m: Mem, t: nat, k: Key, call: Call)
    requires Sized(cfg, m)
  {
    match call
    case Lookup => true
    case First(prev, plen) => PrevOk(cfg, m, k, prev, plen)
    case Again(prev, plen, idx) => PrevOk(cfg, m, k, prev, plen) && Own(cfg, m, t, idx) && m.keys[idx] == k
  }

  predicate WalkOk(cfg: Config, m: Mem, l: Local)
    requires Sized(cfg, m) && l.Walk?
  {
    var b := Bucket(cfg, l.key);
    && l.pos <= l.len <= |m.chains[b]| && l.node == NodeAt(m.chains[b], l.pos) && l.node < cfg.n
    && (!l.call.Lookup? ==> l.call.plen <= l.len)
    && (l.key in m.nodeOf ==> PlaceOf(cfg, m, l.key) < l.pos || PlaceOf(cfg, m, l.key) >= l.len)
    && (l.was <==> l.key in m.nodeOf && PlaceOf(cfg, m, l.key) < l.len)
  }

  /** The map has `k`, at `node`. */
  predicate Has(m: Mem, k: Key, node: nat) { k in m.nodeOf && m.nodeOf[k] == node }

  predicate Won(m: Mem, k: Key, t: nat) { k in m.winner && m.winner[k] == t }

  predicate ThreadOk(cfg: Config, m: Mem, t: nat, l: Local)
    requires Sized(cfg, m)
  {
    match l
    case Idle => true
    case LoadPrev(_) => true
    case FindHead(k, call) => CallOk(cfg, m, t, k, call)
    case Walk(k, call, _, _, _, _) => CallOk(cfg, m, t, k, call) && WalkOk(cfg, m, l)
    case Alloc(k, prev, plen, _) => PrevOk(cfg, m, k, prev, plen) && NotIn(cfg, m, k, plen)
    case AllocCas(k, prev, plen, _, cand, seen) =>
      PrevOk(cfg, m, k, prev, plen) && NotIn(cfg, m, k, plen) && StateOf(seen) == EMPTY
    case Construct(k, prev, plen, idx) => PrevOk(cfg, m, k, prev, plen) && NotIn(cfg, m, k, plen) && Own(cfg, m, t, idx)
    case SetNext(k, prev, plen, idx) =>
      PrevOk(cfg, m, k, prev, plen) && NotIn(cfg, m, k, plen) && Own(cfg, m, t, idx) && m.keys[idx] == k
    case Link(k, prev, plen, idx) =>
      && PrevOk(cfg, m, k, prev, plen) && NotIn(cfg, m, k, plen) && Own(cfg, m, t, idx) && m.keys[idx] == k
      && m.next[idx] == Head(prev)
    case StateUp(k, idx) =>
      idx < cfg.n && m.owner[idx] == Some(t) && m.linkedAt[idx].Some? && StateOf(m.words[idx]) == CONSTRUCTING
      && Has(m, k, idx) && Won(m, k, t)
    case Abort(k, idx, existing) => Own(cfg, m, t, idx) && Has(m, k, existing)
    case Done(k, Found(node, was)) => (was <==> node != 0) && (node != 0 ==> Has(m, k, node))
    case Done(k, Existing(node)) => Has(m, k, node)
    case Done(k, New(node)) => Has(m, k, node) && Won(m, k, t)
    case Done(_, BadAlloc) => true
    case Done(_, Threw) => true
  }

  /** Chains, links and the map agree. */
  ghost predicate Linked(cfg: Config, m: Mem)
    requires Sized(cfg, m)
  {
    && (forall i :: 0 <= i < cfg.n ==> LinkOk(cfg, m, i))
    && (forall b :: 0 <= b < cfg.n ==> BucketOk(cfg, m, b))
    && (forall k :: MapOk(cfg, m, k))
  }

  predicate Slots(cfg: Config, m: Mem, threads: seq<Local>)
    requires Sized(cfg, m)
  {
    forall i :: 0 <= i < cfg.n ==> SlotOk(m, threads, i)
  }

  predicate Threads(cfg: Config, m: Mem, threads: seq<Local>)
    requires Sized(cfg, m)
  {
    forall t :: 0 <= t < |threads| ==> ThreadOk(cfg, m, t, threads[t])
  }

  ghost predicate Inv(cfg: Config, s: State) {
    && Sized(cfg, s.mem) && Linked(cfg, s.mem) && Slots(cfg, s.mem, s.threads) && Threads(cfg, s.mem, s.threads)
  }

  // ----- What other threads notice -----

  /** The memory changed, but nothing that a thread in state `l` relies on. */
  predicate Unnoticed(cfg: Config, m: Mem, m': Mem, l: Local)
    requires Sized(cfg, m) && Sized(cfg, m')
  {
    l.Idle? ||
    (var k := l.key;
     var b := Bucket(cfg, k);
     && m.chains[b] <= m'.chains[b]
     && (k in m.nodeOf ==> k in m'.nodeOf && m'.nodeOf[k] == m.nodeOf[k] && PlaceOf(cfg, m', k) == PlaceOf(cfg, m, k))
     && (k in m.nodeOf && k in m.winner ==> k in m'.winner && m'.winner[k] == m.winner[k])
     && (k !in m.nodeOf && k in m'.nodeOf ==> PlaceOf(cfg, m', k) >= |m.chains[b]|)
     && (Holds(l).Some? && Holds(l).value < cfg.n ==>
           var i := Holds(l).value;
           && m'.owner[i] == m.owner[i] && m'.linkedAt[i] == m.linkedAt[i]
           && StateOf(m'.words[i]) == StateOf(m.words[i]) && m'.keys[i] == m.keys[i] && m'.next[i] == m.next[i]))
  }

  lemma ThreadKept(cfg: Config, m: Mem, m': Mem, u: nat, l: Local)
    requires Sized(cfg, m) && Sized(cfg, m') && ThreadOk(cfg, m, u, l) && Unnoticed(cfg, m, m', l)
    ensures ThreadOk(cfg, m', u, l)
  {
    hide Bucket, PlaceOf, StateOf, Head;
  }

  /** What a thread holds is its own. */
  lemma HeldIsOwned(cfg: Config, m: Mem, u: nat, l: Local)
    requires Sized(cfg, m) && ThreadOk(cfg, m, u, l) && Holds(l).Some?
    ensures Holds(l).value < cfg.n && m.owner[Holds(l).value] == Some(u)
  {
  }

  lemma InvParts(cfg: Config, s: State, t: nat)
    requires Inv(cfg, s) && t < |s.threads|
    ensures Sized(cfg, s.mem) && ThreadOk(cfg, s.mem, t, s.threads[t])
  {
  }

  lemma InvBucket(cfg: Config, s: State, k: Key)
    requires Inv(cfg, s)
    ensures Sized(cfg, s.mem) && BucketOk(cfg, s.mem, Bucket(cfg, k)) && MapOk(cfg, s.mem, k)
    ensures k in s.mem.nodeOf ==> LinkOk(cfg, s.mem, s.mem.nodeOf[k])
  {
    hide LinkOk, BucketOk, Bucket, SlotOk, ThreadOk;
    assert MapOk(cfg, s.mem, k);
  }

  // ----- Steps that leave the memory alone -----

  lemma QuietInv(cfg: Config, s: State, t: nat, l: Local)
    requires Inv(cfg, s) && t < |s.threads| && ThreadOk(cfg, s.mem, t, l) && Holds(l) == Holds(s.threads[t])
    ensures Inv(cfg, s.(threads := s.threads[t := l]))
  {
    hide LinkOk, BucketOk, MapOk, ThreadOk, Bucket, Holds;
    var s' := s.(threads := s.threads[t := l]);
    forall i | 0 <= i < cfg.n ensures SlotOk(s'.mem, s'.threads, i) {
      assert SlotOk(s.mem, s.threads, i);
    }
  }

  lemma FindHeadInv(cfg: Config, s: State, t: nat, cand: nat)
    requires Inv(cfg, s) && t < |s.threads| && s.threads[t].FindHead?
    ensures Inv(cfg, ExecGo(cfg, s, t, cand))
  {
    hide Inv, Bucket;
    InvParts(cfg, s, t);
    var l := s.threads[t];
    InvBucket(cfg, s, l.key);
    var b := Bucket(cfg, l.key);
    var len := |s.mem.chains[b]|;
    QuietInv(cfg, s, t, Walk(l.key, l.call, Head(s.mem.words[b]), len, len, l.key in s.mem.nodeOf));
  }

  /** The node that a walk is at: linked in the bucket, in its place. */
  lemma WalkNode(cfg: Config, s: State, t: nat)
    requires Inv(cfg, s) && t < |s.threads| && s.threads[t].Walk? && s.threads[t].node != 0
    ensures Sized(cfg, s.mem)
    ensures var l := s.threads[t]; var i := l.node; var b := Bucket(cfg, l.key);
      && 0 < l.pos <= |s.mem.chains[b]| && i < cfg.n && s.mem.linkedAt[i] == Some((b, l.pos - 1))
      && s.mem.next[i] == NodeAt(s.mem.chains[b], l.pos - 1) < cfg.n
      && s.mem.keys[i] in s.mem.nodeOf && s.mem.nodeOf[s.mem.keys[i]] == i
  {
    hide Bucket, SlotOk, MapOk;
    InvParts(cfg, s, t);
    var l := s.threads[t];
    var b := Bucket(cfg, l.key);
    assert BucketOk(cfg, s.mem, b);
    assert LinkOk(cfg, s.mem, l.node);
  }

  lemma WalkInv(cfg: Config, s: State, t: nat, cand: nat)
    requires Inv(cfg, s) && t < |s.threads| && s.threads[t].Walk?
    ensures Inv(cfg, ExecGo(cfg, s, t, cand))
  {
    hide Inv, Bucket;
    InvParts(cfg, s, t);
    var l := s.threads[t];
    InvBucket(cfg, s, l.key);
    if l.node != 0 {
      WalkNode(cfg, s, t);
    } else {
      NoNodeLeft(cfg, s, t);
    }
    QuietInv(cfg, s, t, WalkStep(cfg, s.mem, l));
  }

  /** A walk ends at index 0 only when it has passed every node. */
  lemma NoNodeLeft(cfg: Config, s: State, t: nat)
    requires Inv(cfg, s) && t < |s.threads| && s.threads[t].Walk? && s.threads[t].node == 0
    ensures s.threads[t].pos == 0
  {
    hide Bucket, MapOk;
    InvParts(cfg, s, t);
    var l := s.threads[t];
    assert BucketOk(cfg, s.mem, Bucket(cfg, l.key));
    assert SlotOk(s.mem, s.threads, 0);
  }

  // ----- State updates -----

  /** The state bits and the owner of a slot. */
  function Mark(m: Mem, i: nat, w: nat, o: Option<nat>): Mem
    requires i < |m.words| && i < |m.owner|
  {
    m.(words := m.words[i := w], owner := m.owner[i := o])
  }

  lemma MarkOthers(cfg: Config, s: State, t: nat, i: nat, w: nat, o: Option<nat>, l: Local)
    requires Inv(cfg, s) && t < |s.threads| && i < cfg.n
    requires (s.mem.owner[i].None? || s.mem.owner[i] == Some(t)) && ThreadOk(cfg, Mark(s.mem, i, w, o), t, l)
    ensures Threads(cfg, Mark(s.mem, i, w, o), s.threads[t := l])
  {
    hide ThreadOk, Bucket, LinkOk, BucketOk, MapOk, SlotOk;
    var m' := Mark(s.mem, i, w, o);
    forall u | 0 <= u < |s.threads| && u != t
      ensures ThreadOk(cfg, m', u, s.threads[u])
    {
      if Holds(s.threads[u]).Some? {
        HeldIsOwned(cfg, s.mem, u, s.threads[u]);
      }
      ThreadKept(cfg, s.mem, m', u, s.threads[u]);
    }
  }

  lemma MarkSlots(cfg: Config, s: State, t: nat, i: nat, w: nat, o: Option<nat>, l: Local)
    requires Inv(cfg, s) && t < |s.threads| && 0 < i < cfg.n
    requires Holds(s.threads[t]) == None || Holds(s.threads[t]) == Some(i)
    requires if o == Some(t) then StateOf(w) == CONSTRUCTING && Holds(l) == Some(i) else
               o == None && StateOf(w) == (if s.mem.linkedAt[i].Some? then LINKED else EMPTY)
    ensures Slots(cfg, Mark(s.mem, i, w, o), s.threads[t := l])
  {
    hide ThreadOk, Bucket, LinkOk, BucketOk, MapOk, Holds;
    var m', threads' := Mark(s.mem, i, w, o), s.threads[t := l];
    forall j | 0 <= j < cfg.n ensures SlotOk(m', threads', j) {
      assert SlotOk(s.mem, s.threads, j);
    }
  }

  /** A state update moves the state bits and nothing else. */
  lemma MarkInv(cfg: Config, s: State, t: nat, i: nat, w: nat, o: Option<nat>, l: Local)
    requires Inv(cfg, s) && t < |s.threads| && 0 < i < cfg.n && Head(w) == Head(s.mem.words[i])
    requires s.mem.owner[i].None? || s.mem.owner[i] == Some(t)
    requires Holds(s.threads[t]) == None || Holds(s.threads[t]) == Some(i)
    requires if o == Some(t) then StateOf(w) == CONSTRUCTING && Holds(l) == Some(i) else
               o == None && StateOf(w) == (if s.mem.linkedAt[i].Some? then LINKED else EMPTY)
    requires ThreadOk(cfg, Mark(s.mem, i, w, o), t, l)
    ensures Inv(cfg, s.(mem := Mark(s.mem, i, w, o), threads := s.threads[t := l]))
  {
    MarkOthers(cfg, s, t, i, w, o, l);
    MarkSlots(cfg, s, t, i, w, o, l);
    hide Threads, Bucket, Slots, StateOf;
    var m' := Mark(s.mem, i, w, o);
    forall j | 0 <= j < cfg.n ensures LinkOk(cfg, m', j) && BucketOk(cfg, m', j) {
      assert LinkOk(cfg, s.mem, j) && BucketOk(cfg, s.mem, j);
    }
    forall k ensures MapOk(cfg, m', k) {
      assert MapOk(cfg, s.mem, k);
    }
  }

  lemma AllocCasInv(cfg: Config, s: State, t: nat, cand: nat)
    requires Inv(cfg, s) && t < |s.threads| && s.threads[t].AllocCas?
    ensures Inv(cfg, ExecGo(cfg, s, t, cand))
  {
    hide Bucket;
    InvParts(cfg, s, t);
    var l := s.threads[t];
    if l.cand < cfg.n && s.mem.words[l.cand] == l.seen {
      assert SlotOk(s.mem, s.threads, l.cand);
      hide Inv;
      MarkInv(cfg, s, t, l.cand, l.seen + 1, Some(t), Construct(l.key, l.prev, l.plen, l.cand));
    } else {
      hide Inv;
      QuietInv(cfg, s, t, Alloc(l.key, l.prev, l.plen, l.tries + 1));
    }
  }

  lemma StateUpInv(cfg: Config, s: State, t: nat, cand: nat)
    requires Inv(cfg, s) && t < |s.threads| && (s.threads[t].StateUp? || s.threads[t].Abort?)
    ensures Inv(cfg, ExecGo(cfg, s, t, cand))
  {
    hide Bucket;
    InvParts(cfg, s, t);
    var l := s.threads[t];
    assert SlotOk(s.mem, s.threads, l.idx);
    hide Inv;
    if l.StateUp? {
      MarkInv(cfg, s, t, l.idx, s.mem.words[l.idx] + 1, None, Done(l.key, New(l.idx)));
    } else {
      MarkInv(cfg, s, t, l.idx, s.mem.words[l.idx] - 1, None, Done(l.key, Existing(l.existing)));
    }
  }

  // ----- Writing an owned slot -----

  /** The pair and next_ of a slot that is not linked yet. */
  function Fill(m: Mem, i: nat, k: Key, v: Value, n: nat): Mem
    requires i < |m.keys| && i < |m.next| && i < |m.vals|
  {
    m.(keys := m.keys[i := k], vals := m.vals[i := v], next := m.next[i := n])
  }

  lemma FillOthers(cfg: Config, s: State, t: nat, i: nat, k: Key, v: Value, n: nat, l: Local)
    requires Inv(cfg, s) && t < |s.threads| && Own(cfg, s.mem, t, i)
    requires ThreadOk(cfg, Fill(s.mem, i, k, v, n), t, l)
    ensures Threads(cfg, Fill(s.mem, i, k, v, n), s.threads[t := l])
  {
    hide ThreadOk, Bucket, Linked, Slots;
    var m' := Fill(s.mem, i, k, v, n);
    forall u | 0 <= u < |s.threads| && u != t
      ensures ThreadOk(cfg, m', u, s.threads[u])
    {
      if Holds(s.threads[u]).Some? {
        HeldIsOwned(cfg, s.mem, u, s.threads[u]);
      }
      ThreadKept(cfg, s.mem, m', u, s.threads[u]);
    }
  }

  lemma FillInv(cfg: Config, s: State, t: nat, i: nat, k: Key, v: Value, n: nat, l: Local)
    requires Inv(cfg, s) && t < |s.threads| && Own(cfg, s.mem, t, i) && Holds(s.threads[t]) == Holds(l)
    requires ThreadOk(cfg, Fill(s.mem, i, k, v, n), t, l)
    ensures Inv(cfg, s.(mem := Fill(s.mem, i, k, v, n), threads := s.threads[t := l]))
  {
    FillOthers(cfg, s, t, i, k, v, n, l);
    hide Bucket, Threads, Holds, StateOf;
    var m', threads' := Fill(s.mem, i, k, v, n), s.threads[t := l];
    forall j | 0 <= j < cfg.n ensures LinkOk(cfg, m', j) && BucketOk(cfg, m', j) && SlotOk(m', threads', j) {
      assert LinkOk(cfg, s.mem, j) && BucketOk(cfg, s.mem, j) && SlotOk(s.mem, s.threads, j);
    }
    forall q ensures MapOk(cfg, m', q) {
      assert MapOk(cfg, s.mem, q);
    }
  }

  lemma WriteInv(cfg: Config, s: State, t: nat, cand: nat)
    requires Inv(cfg, s) && t < |s.threads| && (s.threads[t].Construct? || s.threads[t].SetNext?)
    ensures Inv(cfg, ExecGo(cfg, s, t, cand))
  {
    hide Bucket, Inv;
    InvParts(cfg, s, t);
    var l, m := s.threads[t], s.mem;
    if l.Construct? {
      var v := ArgOf(s, t);
      assert m.next[l.idx := m.next[l.idx]] == m.next;
      FillInv(cfg, s, t, l.idx, l.key, v, m.next[l.idx], SetNext(l.key, l.prev, l.plen, l.idx));
    } else {
      assert m.keys[l.idx := m.keys[l.idx]] == m.keys && m.vals[l.idx := m.vals[l.idx]] == m.vals;
      FillInv(cfg, s, t, l.idx, m.keys[l.idx], m.vals[l.idx], Head(l.prev), Link(l.key, l.prev, l.plen, l.idx));
    }
  }

  // ----- A throwing func -----

  lemma AbandonInv(cfg: Config, s: State, t: nat, i: nat, k: Key, l: Local)
    requires Inv(cfg, s) && t < |s.threads| && Own(cfg, s.mem, t, i) && Holds(s.threads[t]) == Some(i)
    requires l.Done? && l.result.Threw?
    ensures Inv(cfg, s.(mem := s.mem.(keys := s.mem.keys[i := k], owner := s.mem.owner[i := None]),
                        threads := s.threads[t := l]))
  {
    var m', threads' := s.mem.(keys := s.mem.keys[i := k], owner := s.mem.owner[i := None]), s.threads[t := l];
    AbandonOthers(cfg, s, t, i, k, l);
    hide Bucket, Threads, Holds, StateOf;
    forall j | 0 <= j < cfg.n ensures LinkOk(cfg, m', j) && BucketOk(cfg, m', j) && SlotOk(m', threads', j) {
      assert LinkOk(cfg, s.mem, j) && BucketOk(cfg, s.mem, j) && SlotOk(s.mem, s.threads, j);
    }
    forall q ensures MapOk(cfg, m', q) {
      assert MapOk(cfg, s.mem, q);
    }
  }

  lemma AbandonOthers(cfg: Config, s: State, t: nat, i: nat, k: Key, l: Local)
    requires Inv(cfg, s) && t < |s.threads| && Own(cfg, s.mem, t, i)
    requires l.Done? && l.result.Threw?
    ensures Threads(cfg, s.mem.(keys := s.mem.keys[i := k], owner := s.mem.owner[i := None]), s.threads[t := l])
  {
    var m' := s.mem.(keys := s.mem.keys[i := k], owner := s.mem.owner[i := None]);
    assert ThreadOk(cfg, m', t, l);
    hide ThreadOk, Bucket, Linked, Slots;
    forall u | 0 <= u < |s.threads| && u != t
      ensures ThreadOk(cfg, m', u, s.threads[u])
    {
      if Holds(s.threads[u]).Some? {
        HeldIsOwned(cfg, s.mem, u, s.threads[u]);
      }
      ThreadKept(cfg, s.mem, m', u, s.threads[u]);
    }
  }

  lemma ThrowInv(cfg: Config, s: State, t: nat)
    requires Inv(cfg, s) && t < |s.threads|
    ensures Inv(cfg, ExecThrow(cfg, s, t))
  {
    hide Bucket, Inv;
    InvParts(cfg, s, t);
    var l, m := s.threads[t], s.mem;
    if l.Construct? {
      AbandonInv(cfg, s, t, l.idx, l.key, Done(l.key, Threw));
    }
  }

  // ----- Linking -----

  /** A bucket head that is back at `prev` never moved: no node is linked twice. */
  lemma SameHeadSameChain(cfg: Config, s: State, k: Key, prev: nat, plen: nat)
    requires Inv(cfg, s) && PrevOk(cfg, s.mem, k, prev, plen) && s.mem.words[Bucket(cfg, k)] == prev
    ensures plen == |s.mem.chains[Bucket(cfg, k)]|
  {
    hide Bucket, Threads, StateOf, MapOk;
    var b := Bucket(cfg, k);
    assert BucketOk(cfg, s.mem, b);
    var c := s.mem.chains[b];
    if 0 < |c| {
      assert LinkOk(cfg, s.mem, c[|c| - 1]);
    }
    if 0 < plen {
      assert s.mem.linkedAt[c[plen - 1]] == Some((b, plen - 1));
    }
  }

  /** So a successful link adds a key that the map did not have. */
  lemma LinkedKeyIsNew(cfg: Config, s: State, t: nat)
    requires Inv(cfg, s) && t < |s.threads| && s.threads[t].Link?
    requires s.mem.words[Bucket(cfg, s.threads[t].key)] == s.threads[t].prev
    ensures s.threads[t].key !in s.mem.nodeOf && s.threads[t].plen == |s.mem.chains[Bucket(cfg, s.threads[t].key)]|
  {
    hide Bucket, StateOf, Head;
    InvParts(cfg, s, t);
    var l := s.threads[t];
    InvBucket(cfg, s, l.key);
    SameHeadSameChain(cfg, s, l.key, l.prev, l.plen);
  }

  /** The compare-and-swap succeeds: what the next lemmas are about. */
  ghost predicate Links(cfg: Config, s: State, t: nat) {
    && Inv(cfg, s) && t < |s.threads| && s.threads[t].Link? && s.threads[t].idx < cfg.n
    && s.mem.words[Bucket(cfg, s.threads[t].key)] == s.threads[t].prev
  }

  lemma LinkFacts(cfg: Config, s: State, t: nat)
    requires Links(cfg, s, t)
    ensures var l, m := s.threads[t], s.mem; var b := Bucket(cfg, l.key);
      && 0 < l.idx && Own(cfg, m, t, l.idx) && m.keys[l.idx] == l.key && l.key !in m.nodeOf
      && m.next[l.idx] == NodeAt(m.chains[b], |m.chains[b]|) && StateOf(l.prev) == StateOf(m.words[b]) <= LINKED
      && (forall j :: 0 <= j < cfg.n && m.linkedAt[j].Some? ==> j != l.idx && m.keys[j] != l.key)
      && Linked(cfg, m) && Sized(cfg, LinkMem(cfg, m, t, l))
  {
    hide Bucket;
    InvParts(cfg, s, t);
    LinkedKeyIsNew(cfg, s, t);
    var l, m := s.threads[t], s.mem;
    var b := Bucket(cfg, l.key);
    assert SlotOk(m, s.threads, l.idx) && SlotOk(m, s.threads, b);
    forall j | 0 <= j < cfg.n && m.linkedAt[j].Some? ensures j != l.idx && m.keys[j] != l.key {
      assert LinkOk(cfg, m, j);
    }
  }

  /** The new word: the new head, and state bits that only the slot itself gets. */
  lemma LinkWordParts(b: nat, prev: nat, idx: nat)
    ensures Head(LinkWord(b, prev, idx)) == idx
    ensures StateOf(LinkWord(b, prev, idx)) == if b == idx then LINKED else StateOf(prev)
  {
  }

  lemma LinkKeepsLinks(cfg: Config, s: State, t: nat, j: nat)
    requires Links(cfg, s, t) && j < cfg.n
    ensures Sized(cfg, LinkMem(cfg, s.mem, t, s.threads[t])) && LinkOk(cfg, LinkMem(cfg, s.mem, t, s.threads[t]), j)
  {
    LinkFacts(cfg, s, t);
    hide Bucket, Inv, StateOf, Own, BucketOk, MapOk, LinkWord, Links;
    var l, m := s.threads[t], s.mem;
    var m' := LinkMem(cfg, m, t, l);
    assert LinkOk(cfg, m, j);
  }

  lemma LinkKeepsBuckets(cfg: Config, s: State, t: nat, b: nat)
    requires Links(cfg, s, t) && b < cfg.n
    ensures Sized(cfg, LinkMem(cfg, s.mem, t, s.threads[t])) && BucketOk(cfg, LinkMem(cfg, s.mem, t, s.threads[t]), b)
  {
    LinkFacts(cfg, s, t);
    hide Bucket, Inv, Own, LinkOk, MapOk, Links;
    var l, m := s.threads[t], s.mem;
    assert BucketOk(cfg, m, b);
  }

  lemma LinkKeepsMap(cfg: Config, s: State, t: nat, k: Key)
    requires Links(cfg, s, t)
    ensures Sized(cfg, LinkMem(cfg, s.mem, t, s.threads[t])) && MapOk(cfg, LinkMem(cfg, s.mem, t, s.threads[t]), k)
  {
    LinkFacts(cfg, s, t);
    hide Bucket, Inv, Own, LinkOk, BucketOk, LinkWord, Links;
    assert MapOk(cfg, s.mem, k);
  }

  /** The thread after its link. */
  function AfterLink(cfg: Config, l: Local): Local
    requires l.Link? && cfg.n > 0
  {
    if Bucket(cfg, l.key) == l.idx then Done(l.key, New(l.idx)) else StateUp(l.key, l.idx)
  }

  lemma LinkKeepsSlots(cfg: Config, s: State, t: nat, j: nat)
    requires Links(cfg, s, t) && j < cfg.n
    ensures Sized(cfg, LinkMem(cfg, s.mem, t, s.threads[t]))
    ensures SlotOk(LinkMem(cfg, s.mem, t, s.threads[t]), s.threads[t := AfterLink(cfg, s.threads[t])], j)
  {
    LinkFacts(cfg, s, t);
    assert SlotOk(s.mem, s.threads, j);
    var l := s.threads[t];
    LinkWordParts(Bucket(cfg, l.key), l.prev, l.idx);
    hide Bucket, Inv, LinkOk, BucketOk, MapOk, Links, StateOf, LinkWord, Linked;
  }

  /** Where the keys are, after a link. */
  lemma LinkPlaces(cfg: Config, s: State, t: nat, k: Key)
    requires Links(cfg, s, t)
    ensures Sized(cfg, LinkMem(cfg, s.mem, t, s.threads[t]))
    ensures var m, m' := s.mem, LinkMem(cfg, s.mem, t, s.threads[t]);
      && m.chains[Bucket(cfg, k)] <= m'.chains[Bucket(cfg, k)]
      && (k in m.nodeOf ==> k in m'.nodeOf && m'.nodeOf[k] == m.nodeOf[k] && PlaceOf(cfg, m', k) == PlaceOf(cfg, m, k))
      && (k in m.nodeOf && k in m.winner ==> k in m'.winner && m'.winner[k] == m.winner[k])
      && (k !in m.nodeOf && k in m'.nodeOf ==> PlaceOf(cfg, m', k) >= |m.chains[Bucket(cfg, k)]|)
  {
    LinkFacts(cfg, s, t);
    InvBucket(cfg, s, k);
    hide Bucket, Inv, LinkOk, BucketOk, Links, StateOf, LinkWord, Linked, Head, Own;
  }

  /** What other threads hold, after a link. */
  lemma LinkOtherSlot(cfg: Config, s: State, t: nat, i: nat)
    requires Links(cfg, s, t) && i < cfg.n && s.mem.owner[i].Some? && s.mem.owner[i] != Some(t)
    ensures Sized(cfg, LinkMem(cfg, s.mem, t, s.threads[t]))
    ensures var m, m' := s.mem, LinkMem(cfg, s.mem, t, s.threads[t]);
      && m'.owner[i] == m.owner[i] && m'.linkedAt[i] == m.linkedAt[i] && StateOf(m'.words[i]) == StateOf(m.words[i])
      && m'.keys[i] == m.keys[i] && m'.next[i] == m.next[i]
  {
    LinkFacts(cfg, s, t);
    LinkWordParts(Bucket(cfg, s.threads[t].key), s.threads[t].prev, s.threads[t].idx);
    hide Bucket, Inv, LinkOk, BucketOk, Links, StateOf, LinkWord, Linked, Head;
  }

  lemma LinkUnnoticed(cfg: Config, s: State, t: nat, u: nat, l: Local)
    requires Links(cfg, s, t) && u != t
    requires Holds(l).Some? ==> Holds(l).value < cfg.n && s.mem.owner[Holds(l).value] == Some(u)
    ensures Sized(cfg, LinkMem(cfg, s.mem, t, s.threads[t]))
    ensures Unnoticed(cfg, s.mem, LinkMem(cfg, s.mem, t, s.threads[t]), l)
  {
    hide Bucket, Inv, LinkMem, PlaceOf, Holds, StateOf;
    LinkPlaces(cfg, s, t, if l.Idle? then 0 else l.key);
    if Holds(l).Some? {
      LinkOtherSlot(cfg, s, t, Holds(l).value);
    }
  }

  lemma LinkKeepsThreads(cfg: Config, s: State, t: nat, u: nat)
    requires Links(cfg, s, t) && u < |s.threads| && u != t
    ensures Sized(cfg, LinkMem(cfg, s.mem, t, s.threads[t]))
    ensures ThreadOk(cfg, LinkMem(cfg, s.mem, t, s.threads[t]), u, s.threads[u])
  {
    hide Bucket, Inv, ThreadOk, LinkMem, Unnoticed;
    InvParts(cfg, s, u);
    if Holds(s.threads[u]).Some? {
      HeldIsOwned(cfg, s.mem, u, s.threads[u]);
    }
    LinkUnnoticed(cfg, s, t, u, s.threads[u]);
    ThreadKept(cfg, s.mem, LinkMem(cfg, s.mem, t, s.threads[t]), u, s.threads[u]);
  }

  lemma LinkInv(cfg: Config, s: State, t: nat, cand: nat)
    requires Inv(cfg, s) && t < |s.threads| && s.threads[t].Link?
    ensures Inv(cfg, ExecGo(cfg, s, t, cand))
  {
    InvParts(cfg, s, t);
    var l := s.threads[t];
    var b := Bucket(cfg, l.key);
    if s.mem.words[b] == l.prev {
      var m', threads' := LinkMem(cfg, s.mem, t, l), s.threads[t := AfterLink(cfg, l)];
      LinkFacts(cfg, s, t);
      LinkedThreadOk(cfg, s, t);
      hide Bucket, LinkOk, BucketOk, MapOk, SlotOk, ThreadOk, LinkMem, AfterLink, StateOf, LinkWord;
      forall j | 0 <= j < cfg.n ensures LinkOk(cfg, m', j) && BucketOk(cfg, m', j) && SlotOk(m', threads', j) {
        LinkKeepsLinks(cfg, s, t, j);
        LinkKeepsBuckets(cfg, s, t, j);
        LinkKeepsSlots(cfg, s, t, j);
      }
      forall k ensures MapOk(cfg, m', k) {
        LinkKeepsMap(cfg, s, t, k);
      }
      forall u | 0 <= u < |threads'| ensures ThreadOk(cfg, m', u, threads'[u]) {
        if u != t {
          LinkKeepsThreads(cfg, s, t, u);
        }
      }
      assert Inv(cfg, s.(mem := m', threads := threads'));
      LinkExec(cfg, s, t, cand);
    } else {
      InvBucket(cfg, s, l.key);
      hide Bucket, Inv;
      QuietInv(cfg, s, t, FindHead(l.key, Again(s.mem.words[b], |s.mem.chains[b]|, l.idx)));
    }
  }

  lemma LinkExec(cfg: Config, s: State, t: nat, cand: nat)
    requires Links(cfg, s, t)
    ensures ExecGo(cfg, s, t, cand)
      == s.(mem := LinkMem(cfg, s.mem, t, s.threads[t]), threads := s.threads[t := AfterLink(cfg, s.threads[t])])
  {
  }

  lemma LinkedThreadOk(cfg: Config, s: State, t: nat)
    requires Links(cfg, s, t)
    ensures Sized(cfg, LinkMem(cfg, s.mem, t, s.threads[t]))
    ensures ThreadOk(cfg, LinkMem(cfg, s.mem, t, s.threads[t]), t, AfterLink(cfg, s.threads[t]))
  {
    LinkFacts(cfg, s, t);
    hide Bucket, Inv, LinkOk, BucketOk, MapOk, Links;
  }

  // ----- Every step, every run -----

  lemma ExecGoInv(cfg: Config, s: State, t: nat, cand: nat)
    requires Inv(cfg, s) && t < |s.threads|
    ensures Inv(cfg, ExecGo(cfg, s, t, cand))
  {
    var l := s.threads[t];
    match l {
      case FindHead(_, _) => FindHeadInv(cfg, s, t, cand);
      case Walk(_, _, _, _, _, _) => WalkInv(cfg, s, t, cand);
      case AllocCas(_, _, _, _, _, _) => AllocCasInv(cfg, s, t, cand);
      case Construct(_, _, _, _) => WriteInv(cfg, s, t, cand);
      case SetNext(_, _, _, _) => WriteInv(cfg, s, t, cand);
      case Link(_, _, _, _) => LinkInv(cfg, s, t, cand);
      case StateUp(_, _) => StateUpInv(cfg, s, t, cand);
      case Abort(_, _, _) => StateUpInv(cfg, s, t, cand);
      case _ => LoadInv(cfg, s, t, cand);
    }
  }

  lemma LoadInv(cfg: Config, s: State, t: nat, cand: nat)
    requires Inv(cfg, s) && t < |s.threads|
    requires var l := s.threads[t]; l.Idle? || l.Done? || l.LoadPrev? || l.Alloc?
    ensures Inv(cfg, ExecGo(cfg, s, t, cand))
  {
    hide Bucket, Inv;
    InvParts(cfg, s, t);
    var s' := ExecGo(cfg, s, t, cand);
    if s.threads[t].LoadPrev? {
      InvBucket(cfg, s, s.threads[t].key);
    }
    if s' != s {
      QuietInv(cfg, s, t, s'.threads[t]);
    }
  }

  lemma ExecInv(cfg: Config, s: State, t: nat, a: Action)
    requires Inv(cfg, s)
    ensures Inv(cfg, Exec(cfg, s, t, a))
  {
    if t < |s.threads| {
      hide Inv, ExecGo, ExecThrow, Bucket;
      InvParts(cfg, s, t);
      match a {
        case Go(cand) => ExecGoInv(cfg, s, t, cand);
        case Throw => ThrowInv(cfg, s, t);
        case StartFind(k) => if s.threads[t].Idle? || s.threads[t].Done? { QuietInv(cfg, s, t, FindHead(k, Lookup)); }
        case StartInsert(k, _) => if s.threads[t].Idle? || s.threads[t].Done? { QuietInv(cfg, s, t, LoadPrev(k)); }
      }
    }
  }

  lemma InitialInv(cfg: Config, n: nat)
    requires cfg.n > 0
    ensures Inv(cfg, Initial(cfg, n))
  {
    hide Bucket;
  }

  lemma {:induction false} RunInv(cfg: Config, s: State, schedule: seq<(nat, Action)>)
    requires Inv(cfg, s)
    ensures Inv(cfg, Run(cfg, s, schedule))
  {
    if |schedule| > 0 {
      hide Inv, Exec;
      RunInv(cfg, s, schedule[..|schedule| - 1]);
      var last := schedule[|schedule| - 1];
      ExecInv(cfg, Run(cfg, s, schedule[..|schedule| - 1]), last.0, last.1);
    }
  }

  ghost predicate Reachable(cfg: Config, s: State) {
    cfg.n > 0 && exists n: nat, schedule :: s == Run(cfg, Initial(cfg, n), schedule)
  }

  lemma ReachableInv(cfg: Config, s: State)
    requires Reachable(cfg, s)
    ensures Inv(cfg, s)
  {
    var n: nat, schedule :| s == Run(cfg, Initial(cfg, n), schedule);
    InitialInv(cfg, n);
    RunInv(cfg, Initial(cfg, n), schedule);
  }

  // ----- The theorems -----

  /** `n` steps along next_ from slot `i`. */
  function Follow(next: seq<nat>, i: nat, n: nat): nat {
    if n == 0 then i
    else
      var j := Follow(next, i, n - 1);
      if j < |next| then next[j] else 0
  }

  lemma {:induction false} FollowIsChain(cfg: Config, s: State, b: nat, n: nat)
    requires Inv(cfg, s) && b < cfg.n && n <= |s.mem.chains[b]|
    ensures Follow(s.mem.next, Head(s.mem.words[b]), n) == NodeAt(s.mem.chains[b], |s.mem.chains[b]| - n)
  {
    hide Bucket, SlotOk, ThreadOk, MapOk;
    assert BucketOk(cfg, s.mem, b);
    if n > 0 {
      FollowIsChain(cfg, s, b, n - 1);
      assert LinkOk(cfg, s.mem, s.mem.chains[b][|s.mem.chains[b]| - n]);
    }
  }

  /** A node of a chain. */
  predicate NodeOk(cfg: Config, m: Mem, b: nat, i: nat)
    requires Sized(cfg, m)
  {
    0 < i < cfg.n && StateOf(m.words[i]) != EMPTY && Bucket(cfg, m.keys[i]) == b
  }

  lemma ChainNode(cfg: Config, s: State, b: nat, p: nat)
    requires Inv(cfg, s) && b < cfg.n && p < |s.mem.chains[b]|
    ensures Sized(cfg, s.mem) && NodeOk(cfg, s.mem, b, s.mem.chains[b][p])
    ensures s.mem.linkedAt[s.mem.chains[b][p]] == Some((b, p))
    ensures s.mem.keys[s.mem.chains[b][p]] in s.mem.nodeOf
    ensures s.mem.nodeOf[s.mem.keys[s.mem.chains[b][p]]] == s.mem.chains[b][p]
  {
    hide Bucket, ThreadOk, MapOk;
    assert BucketOk(cfg, s.mem, b);
    assert LinkOk(cfg, s.mem, s.mem.chains[b][p]);
    assert SlotOk(s.mem, s.threads, s.mem.chains[b][p]);
  }

  /** From any bucket's head the links lead through slots in use that hold keys of that
      bucket, and end at slot 0. */
  lemma ChainsEndAtZero(cfg: Config, s: State, b: nat, n: nat)
    requires Reachable(cfg, s) && b < cfg.n && b < |s.mem.chains| && n <= |s.mem.chains[b]|
    ensures Sized(cfg, s.mem)
    ensures var node := Follow(s.mem.next, Head(s.mem.words[b]), n);
      if n == |s.mem.chains[b]| then node == 0
      else node == s.mem.chains[b][|s.mem.chains[b]| - 1 - n] && NodeOk(cfg, s.mem, b, node)
  {
    ReachableInv(cfg, s);
    hide Reachable, Bucket, NodeOk;
    FollowIsChain(cfg, s, b, n);
    if n < |s.mem.chains[b]| {
      ChainNode(cfg, s, b, |s.mem.chains[b]| - 1 - n);
    }
  }

  /** No slot is met twice on the way, and no key. */
  lemma ChainsAreAcyclic(cfg: Config, s: State, b: nat, p: nat, q: nat)
    requires Reachable(cfg, s) && b < cfg.n && b < |s.mem.chains| && p < q < |s.mem.chains[b]|
    ensures Sized(cfg, s.mem) && s.mem.chains[b][p] != s.mem.chains[b][q]
    ensures s.mem.chains[b][p] < cfg.n && s.mem.chains[b][q] < cfg.n
    ensures s.mem.keys[s.mem.chains[b][p]] != s.mem.keys[s.mem.chains[b][q]]
  {
    ReachableInv(cfg, s);
    hide Reachable, Inv;
    ChainNode(cfg, s, b, p);
    ChainNode(cfg, s, b, q);
  }

  /** Each key is linked at most once in the whole map. */
  lemma KeyLinkedOnce(cfg: Config, s: State, b: nat, p: nat, d: nat, q: nat)
    requires Reachable(cfg, s) && b < cfg.n && d < cfg.n && b < |s.mem.chains| && d < |s.mem.chains|
    requires p < |s.mem.chains[b]| && q < |s.mem.chains[d]|
    requires s.mem.chains[b][p] < |s.mem.keys| && s.mem.chains[d][q] < |s.mem.keys|
    requires s.mem.keys[s.mem.chains[b][p]] == s.mem.keys[s.mem.chains[d][q]]
    ensures b == d && p == q
  {
    ReachableInv(cfg, s);
    hide Reachable, Bucket, ThreadOk, MapOk, SlotOk;
    assert BucketOk(cfg, s.mem, b) && BucketOk(cfg, s.mem, d);
    assert LinkOk(cfg, s.mem, s.mem.chains[b][p]) && LinkOk(cfg, s.mem, s.mem.chains[d][q]);
  }

  /** A slot that is empty, or that a thread is still constructing in or giving up, is
      in no chain; no key can be read from it. */
  lemma UnlinkedIsUnreachable(cfg: Config, s: State, t: nat, b: nat, p: nat)
    requires Reachable(cfg, s) && t < |s.threads| && b < |s.mem.chains| && p < |s.mem.chains[b]|
    requires b < cfg.n
    ensures s.mem.chains[b][p] < |s.mem.words| && StateOf(s.mem.words[s.mem.chains[b][p]]) != EMPTY
    ensures Holds(s.threads[t]) == Some(s.mem.chains[b][p]) ==> s.threads[t].StateUp?
  {
    ReachableInv(cfg, s);
    hide Reachable, Bucket, MapOk;
    assert BucketOk(cfg, s.mem, b);
    assert SlotOk(s.mem, s.threads, s.mem.chains[b][p]);
    InvParts(cfg, s, t);
  }

  /** Thread `t`'s step links slot `idx` into bucket `i`. */
  predicate LinksInto(cfg: Config, s: State, t: nat, a: Action, i: nat)
    requires Sized(cfg, s.mem)
  {
    && t < |s.threads| && a.Go? && s.threads[t].Link? && Bucket(cfg, s.threads[t].key) == i
    && s.mem.words[i] == s.threads[t].prev
  }

  /** State arithmetic never disturbs head bits, and linking never disturbs the state of
      the bucket it links into, unless that is the new slot itself. */
  lemma BitsKeptApart(cfg: Config, s: State, t: nat, a: Action, i: nat)
    requires Reachable(cfg, s) && i < cfg.n
    ensures Sized(cfg, s.mem) && Sized(cfg, Exec(cfg, s, t, a).mem)
    ensures var w, w' := s.mem.words[i], Exec(cfg, s, t, a).mem.words[i];
      if LinksInto(cfg, s, t, a, i) then
        Head(w') == s.threads[t].idx && (StateOf(w') == StateOf(w) || (i == s.threads[t].idx && StateOf(w') == LINKED))
      else Head(w') == Head(w)
  {
    ReachableInv(cfg, s);
    ExecInv(cfg, s, t, a);
    hide Reachable, Bucket;
    if t < |s.threads| {
      InvParts(cfg, s, t);
      assert SlotOk(s.mem, s.threads, i);
    }
  }

  /** The map changes only by a link, which adds a key it did not have. */
  lemma StepsOnlyAdd(cfg: Config, s: State, t: nat, a: Action)
    requires Reachable(cfg, s)
    ensures Sized(cfg, s.mem)
    ensures var s' := Exec(cfg, s, t, a);
      if t < |s.threads| && s.threads[t].Link? && LinksInto(cfg, s, t, a, Bucket(cfg, s.threads[t].key)) then
        && s.threads[t].key !in s.mem.nodeOf && s'.mem.nodeOf == s.mem.nodeOf[s.threads[t].key := s.threads[t].idx]
        && (s'.threads[t] == Done(s.threads[t].key, New(s.threads[t].idx))
            || s'.threads[t] == StateUp(s.threads[t].key, s.threads[t].idx))
      else s'.mem.nodeOf == s.mem.nodeOf
  {
    ReachableInv(cfg, s);
    hide Reachable, Bucket, ThreadOk, Linked, Slots;
    if t < |s.threads| && s.threads[t].Link? && LinksInto(cfg, s, t, a, Bucket(cfg, s.threads[t].key)) {
      LinkedKeyIsNew(cfg, s, t);
      InvIdx(cfg, s, t);
    }
  }

  lemma InvIdx(cfg: Config, s: State, t: nat)
    requires Inv(cfg, s) && t < |s.threads| && s.threads[t].Link?
    ensures s.threads[t].idx < cfg.n
  {
    InvParts(cfg, s, t);
  }

  /** A find answers exactly the membership that held when it loaded the bucket's head;
      that instant is when it takes effect. */
  lemma FindIsMembership(cfg: Config, s: State, t: nat, k: Key, node: nat, was: bool)
    requires Reachable(cfg, s) && t < |s.threads| && s.threads[t] == Done(k, Found(node, was))
    ensures (node != 0 <==> was) && (was ==> Has(s.mem, k, node))
  {
    ReachableInv(cfg, s);
    InvParts(cfg, s, t);
  }

  lemma {:induction false} RunOnlyAdds(cfg: Config, s: State, schedule: seq<(nat, Action)>, k: Key)
    requires Reachable(cfg, s) && k in s.mem.nodeOf
    ensures Has(Run(cfg, s, schedule).mem, k, s.mem.nodeOf[k])
  {
    if |schedule| > 0 {
      hide Reachable, Exec;
      var less, last := schedule[..|schedule| - 1], schedule[|schedule| - 1];
      RunOnlyAdds(cfg, s, less, k);
      ReachableOn(cfg, s, less);
      StepsOnlyAdd(cfg, Run(cfg, s, less), last.0, last.1);
    }
  }

  lemma {:induction false} RunAppend(cfg: Config, s: State, x: seq<(nat, Action)>, y: seq<(nat, Action)>)
    ensures Run(cfg, Run(cfg, s, x), y) == Run(cfg, s, x + y)
  {
    if |y| == 0 {
      assert x + y == x;
    } else {
      hide Exec;
      RunAppend(cfg, s, x, y[..|y| - 1]);
      assert (x + y)[..|x + y| - 1] == x + y[..|y| - 1];
    }
  }

  lemma ReachableOn(cfg: Config, s: State, more: seq<(nat, Action)>)
    requires Reachable(cfg, s)
    ensures Reachable(cfg, Run(cfg, s, more))
  {
    hide Exec;
    var n: nat, schedule :| s == Run(cfg, Initial(cfg, n), schedule);
    RunAppend(cfg, Initial(cfg, n), schedule, more);
  }

  /** Exactly when the compare-and-swap wins for a slot that is its own bucket: the word
      it expects must have been loaded while the slot was marked as under construction,
      and no node was linked since. The thread's own allocation marks the slot after the
      first load, so the first attempt wins only if another thread had the slot then. */
  lemma OwnBucketWinsIff(cfg: Config, s: State, t: nat, cand: nat)
    requires Reachable(cfg, s) && t < |s.threads| && s.threads[t].Link? && cfg.n > 0
    requires Bucket(cfg, s.threads[t].key) == s.threads[t].idx
    ensures Sized(cfg, s.mem)
    ensures var l := s.threads[t];
      Exec(cfg, s, t, Go(cand)).threads[t] == Done(l.key, New(l.idx)) <==>
        StateOf(l.prev) == CONSTRUCTING && l.plen == |s.mem.chains[l.idx]|
  {
    ReachableInv(cfg, s);
    hide Reachable;
    InvParts(cfg, s, t);
    var l := s.threads[t];
    InvBucket(cfg, s, l.key);
    hide Inv, Bucket;
    if s.mem.words[l.idx] == l.prev {
      SameHeadSameChain(cfg, s, l.key, l.prev, l.plen);
    }
  }

  /** A slot that nobody constructs in and that is still marked so. */
  predicate Abandoned(cfg: Config, m: Mem, i: nat) {
    Sized(cfg, m) && 0 < i < cfg.n && StateOf(m.words[i]) == CONSTRUCTING && m.owner[i].None?
  }

  lemma AbandonedStep(cfg: Config, s: State, t: nat, a: Action, i: nat)
    requires Inv(cfg, s) && Abandoned(cfg, s.mem, i)
    ensures Abandoned(cfg, Exec(cfg, s, t, a).mem, i)
  {
    ExecInv(cfg, s, t, a);
    if t < |s.threads| {
      InvParts(cfg, s, t);
      hide Inv, Bucket, Head, LinkWord;
      var l := s.threads[t];
      if l.Link? {
        LinkWordParts(Bucket(cfg, l.key), l.prev, l.idx);
      }
    }
  }

  /** A func that throws costs the map its slot: nobody gets it again, in any run, and it
      is never linked. */
  lemma {:induction false} ThrownSlotIsLost(cfg: Config, s: State, t: nat, schedule: seq<(nat, Action)>)
    requires Reachable(cfg, s) && t < |s.threads| && s.threads[t].Construct?
    ensures var s' := Run(cfg, Exec(cfg, s, t, Throw), schedule); var i := s.threads[t].idx;
      Abandoned(cfg, s'.mem, i) && s'.mem.linkedAt[i].None?
    decreases |schedule|
  {
    ReachableInv(cfg, s);
    var s1, i := Exec(cfg, s, t, Throw), s.threads[t].idx;
    ExecInv(cfg, s, t, Throw);
    InvParts(cfg, s, t);
    if |schedule| == 0 {
      hide Bucket, ThreadOk, Linked;
      assert SlotOk(s.mem, s.threads, i);
    } else {
      hide Inv, Exec, Reachable;
      var less, last := schedule[..|schedule| - 1], schedule[|schedule| - 1];
      ThrownSlotIsLost(cfg, s, t, less);
      RunInv(cfg, s1, less);
      RunInv(cfg, s1, schedule);
      AbandonedStep(cfg, Run(cfg, s1, less), last.0, last.1, i);
      AbandonedIsUnlinked(cfg, Run(cfg, s1, schedule), i);
    }
  }

  lemma AbandonedIsUnlinked(cfg: Config, s: State, i: nat)
    requires Inv(cfg, s) && Abandoned(cfg, s.mem, i)
    ensures s.mem.linkedAt[i].None?
  {
    assert SlotOk(s.mem, s.threads, i);
  }
}
