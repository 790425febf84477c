/** Two runs of the insert-only map (libs/folly/folly/AtomicUnorderedMap.h:267-312, 437-470). That
    a findOrConstruct found no slot does not mean that the slots near its bucket were in use: a
    compare-and-swap of an empty slot also fails when a key is linked into the list that the
    slot is the bucket of, and so a free slot can stay free throughout such a call. And a slot
    can be linked into its own bucket by the first compare-and-swap. */
module UnorderedMapChecks {
  import opened Common
  import opened UnorderedMap
  import opened UnorderedMapCalls

  const SMALL := Config(4, k => if k == 0 then 0 else 1, 1)

  lemma Buckets()
    ensures Bucket(SMALL, 0) == 0 && Bucket(SMALL, 1) == 1 && Bucket(SMALL, 5) == 1
  {
    assert BitAnd(0, 1) == 0 && BitAnd(1, 1) == 1;
  }

  // ----- Parts of calls -----

  lemma Then(cfg: Config, s: State, t: nat, a: Action)
    requires Reachable(cfg, s)
    ensures Reachable(cfg, Exec(cfg, s, t, a))
  {
    hide Exec;
    var n: nat, schedule :| s == Run(cfg, Initial(cfg, n), schedule);
    var more := schedule + [(t, a)];
    assert more[..|more| - 1] == schedule;
    assert Exec(cfg, s, t, a) == Run(cfg, Initial(cfg, n), more);
  }

  /** A thread is idle, or between calls. */
  predicate Free(cfg: Config, s: State, t: nat) {
    Sized(cfg, s.mem) && t < |s.threads| && (s.threads[t].Idle? || s.threads[t].Done?)
  }

  function Moved(s: State, t: nat, l: Local): State
    requires t < |s.threads|
  {
    s.(threads := s.threads[t := l])
  }

  /** The look of an insert at an empty list. */
  lemma Looks(cfg: Config, s: State, t: nat, k: Key)
    requires Reachable(cfg, s) && Free(cfg, s, t) && Head(s.mem.words[Bucket(cfg, k)]) == 0
    requires t < |s.args| && s.args[t] == 0
    ensures var b := Bucket(cfg, k);
      Reachable(cfg, Moved(s, t, Alloc(k, s.mem.words[b], |s.mem.chains[b]|, 0)))
  {
    hide Bucket, Reachable, Head;
    var b := Bucket(cfg, k);
    var call := First(s.mem.words[b], |s.mem.chains[b]|);
    var walk := Walk(k, call, 0, |s.mem.chains[b]|, |s.mem.chains[b]|, k in s.mem.nodeOf);
    var s1, s2, s3 := Moved(s, t, LoadPrev(k)), Moved(s, t, FindHead(k, call)), Moved(s, t, walk);
    assert s.args[t := 0] == s.args;
    Then(cfg, s, t, StartInsert(k, 0));
    Then(cfg, s1, t, Go(0));
    assert Exec(cfg, s1, t, Go(0)) == s2;
    Then(cfg, s2, t, Go(0));
    assert Exec(cfg, s2, t, Go(0)) == s3;
    Then(cfg, s3, t, Go(0));
    assert Exec(cfg, s3, t, Go(0)) == Moved(s, t, Alloc(k, s.mem.words[b], |s.mem.chains[b]|, 0));
  }

  predicate Trying(cfg: Config, s: State, t: nat) {
    Sized(cfg, s.mem) && t < |s.threads| && s.threads[t].Alloc? && s.threads[t].tries < MAX_TRIES
  }

  /** The slot that a thread tries, when the random choice is 0. */
  function Tried(cfg: Config, s: State, t: nat): nat
    requires Trying(cfg, s, t)
  {
    Attempt(cfg, Bucket(cfg, s.threads[t].key), s.threads[t].tries, 0)
  }

  /** A try that finds the slot in use. */
  lemma Skips(cfg: Config, s: State, t: nat)
    requires Trying(cfg, s, t) && Tried(cfg, s, t) < cfg.n && StateOf(s.mem.words[Tried(cfg, s, t)]) != EMPTY
    ensures var l := s.threads[t]; Exec(cfg, s, t, Go(0)) == Moved(s, t, Alloc(l.key, l.prev, l.plen, l.tries + 1))
    ensures Reachable(cfg, s) ==> Reachable(cfg, Exec(cfg, s, t, Go(0)))
  {
    hide Bucket, Reachable, StateOf, Attempt;
    if Reachable(cfg, s) {
      Then(cfg, s, t, Go(0));
    }
  }

  /** What a thread that gets its slot, writes its pair and its link leaves behind. */
  function Claimed(cfg: Config, s: State, t: nat): State
    requires Trying(cfg, s, t) && Tried(cfg, s, t) < cfg.n
  {
    var l, i := s.threads[t], Tried(cfg, s, t);
    s.(mem := s.mem.(words := s.mem.words[i := s.mem.words[i] + CONSTRUCTING - EMPTY],
                     owner := s.mem.owner[i := Some(t)]),
       threads := s.threads[t := Construct(l.key, l.prev, l.plen, i)])
  }

  lemma Claims(cfg: Config, s: State, t: nat)
    requires Reachable(cfg, s) && Trying(cfg, s, t) && Tried(cfg, s, t) < cfg.n
    requires StateOf(s.mem.words[Tried(cfg, s, t)]) == EMPTY
    ensures Reachable(cfg, Claimed(cfg, s, t))
  {
    hide Bucket, Reachable, StateOf, Attempt;
    var l, i := s.threads[t], Tried(cfg, s, t);
    var s1 := Moved(s, t, AllocCas(l.key, l.prev, l.plen, l.tries, i, s.mem.words[i]));
    Then(cfg, s, t, Go(0));
    assert Exec(cfg, s, t, Go(0)) == s1;
    Then(cfg, s1, t, Go(0));
    assert Exec(cfg, s1, t, Go(0)) == Claimed(cfg, s, t);
  }

  function Written(cfg: Config, s: State, t: nat): State
    requires Sized(cfg, s.mem) && t < |s.threads| && s.threads[t].Construct? && s.threads[t].idx < cfg.n
  {
    var l, m := s.threads[t], s.mem;
    s.(mem := m.(keys := m.keys[l.idx := l.key], vals := m.vals[l.idx := ArgOf(s, t)],
                 next := m.next[l.idx := Head(l.prev)]),
       threads := s.threads[t := Link(l.key, l.prev, l.plen, l.idx)])
  }

  lemma Writes(cfg: Config, s: State, t: nat)
    requires Reachable(cfg, s) && Sized(cfg, s.mem) && t < |s.threads| && s.threads[t].Construct?
    requires s.threads[t].idx < cfg.n
    ensures Reachable(cfg, Written(cfg, s, t))
  {
    hide Reachable, Head;
    var l, m := s.threads[t], s.mem;
    var s1 := s.(mem := m.(keys := m.keys[l.idx := l.key], vals := m.vals[l.idx := ArgOf(s, t)]),
                 threads := s.threads[t := SetNext(l.key, l.prev, l.plen, l.idx)]);
    Then(cfg, s, t, Go(0));
    assert Exec(cfg, s, t, Go(0)) == s1;
    Then(cfg, s1, t, Go(0));
    assert Exec(cfg, s1, t, Go(0)) == Written(cfg, s, t);
  }

  // ----- Before the call -----

  /** The slots: their words, keys and owners; key 0 is linked at slot 2 or not at all. */
  function Slots4(words: seq<nat>, keys: seq<Key>, owner: seq<Option<nat>>, linked: bool): Mem {
    if linked then
      Mem(words, [0, 0, 0, 0], keys, [0, 0, 0, 0], [[2], [], [], []], [None, None, Some((0, 0)), None], owner,
          map[0 := 2], map[0 := 3])
    else Mem(words, [0, 0, 0, 0], keys, [0, 0, 0, 0], [[], [], [], []], [None, None, None, None], owner, map[], map[])
  }

  /** All values are zero. */
  function At(m: Mem, threads: seq<Local>): State { State(m, threads, [0, 0, 0, 0]) }

  /** Thread 2 has slot 1 for key 0. */
  function OneTaken(): State {
    At(Slots4([1, 1, 0, 0], [0, 0, 0, 0], [None, Some(2), None, None], false),
          [Idle, Idle, Construct(0, 1, 0, 1), Idle])
  }

  /** Thread 3 has linked key 0 at slot 2. */
  function TwoLinked(): State {
    At(Slots4([9, 1, 1, 0], [0, 0, 0, 0], [None, Some(2), Some(3), None], true),
          [Idle, Idle, Construct(0, 1, 0, 1), StateUp(0, 2)])
  }

  /** Thread 1 has slot 3 for key 1. */
  function ThreeTaken(): State {
    At(Slots4([9, 1, 1, 1], [0, 0, 0, 1], [None, Some(2), Some(3), Some(1)], true),
          [Idle, Link(1, 1, 0, 3), Construct(0, 1, 0, 1), StateUp(0, 2)])
  }

  /** Thread 2 has found key 0 and given slot 1 back. */
  function OneFree(): State {
    At(Slots4([9, 0, 1, 1], [0, 0, 0, 1], [None, None, Some(3), Some(1)], true),
          [Idle, Link(1, 1, 0, 3), Done(0, Existing(2)), StateUp(0, 2)])
  }

  /** Thread 1 has looked again and is about to link key 1 into the list of slot 1. */
  function AboutToLink(): State { Moved(OneFree(), 1, Link(1, 0, 0, 3)) }

  lemma ReachOneTaken()
    ensures Reachable(SMALL, OneTaken())
  {
    Buckets();
    hide Bucket;
    var s0 := Initial(SMALL, 4);
    assert s0 == Run(SMALL, Initial(SMALL, 4), []);
    assert s0 == At(Slots4([1, 0, 0, 0], [0, 0, 0, 0], [None, None, None, None], false), [Idle, Idle, Idle, Idle]);
    hide Reachable;
    Looks(SMALL, s0, 2, 0);
    var s1 := Moved(s0, 2, Alloc(0, 1, 0, 0));
    Skips(SMALL, s1, 2);
    var s2 := Moved(s0, 2, Alloc(0, 1, 0, 1));
    assert Exec(SMALL, s1, 2, Go(0)) == s2;
    Claims(SMALL, s2, 2);
    assert Claimed(SMALL, s2, 2) == OneTaken();
  }

  lemma ReachTwoLinked()
    ensures Reachable(SMALL, TwoLinked())
  {
    Buckets();
    hide Bucket, Reachable;
    ReachOneTaken();
    var s := OneTaken();
    Looks(SMALL, s, 3, 0);
    Skips(SMALL, Moved(s, 3, Alloc(0, 1, 0, 0)), 3);
    assert Moved(Moved(s, 3, Alloc(0, 1, 0, 0)), 3, Alloc(0, 1, 0, 1)) == Moved(s, 3, Alloc(0, 1, 0, 1));
    Skips(SMALL, Moved(s, 3, Alloc(0, 1, 0, 1)), 3);
    assert Moved(Moved(s, 3, Alloc(0, 1, 0, 1)), 3, Alloc(0, 1, 0, 2)) == Moved(s, 3, Alloc(0, 1, 0, 2));
    var s1 := Moved(s, 3, Alloc(0, 1, 0, 2));
    Claims(SMALL, s1, 3);
    var s2 := Claimed(SMALL, s1, 3);
    assert s2 == At(Slots4([1, 1, 1, 0], [0, 0, 0, 0], [None, Some(2), Some(3), None], false),
                       [Idle, Idle, Construct(0, 1, 0, 1), Construct(0, 1, 0, 2)]);
    Writes(SMALL, s2, 3);
    var s3 := Moved(s2, 3, Link(0, 1, 0, 2));
    assert Written(SMALL, s2, 3) == s3;
    Then(SMALL, s3, 3, Go(0));
    LinksTwo(s3);
  }

  lemma LinksTwo(s: State)
    requires s.mem == Slots4([1, 1, 1, 0], [0, 0, 0, 0], [None, Some(2), Some(3), None], false)
    requires s.threads == [Idle, Idle, Construct(0, 1, 0, 1), Link(0, 1, 0, 2)] && s.args == [0, 0, 0, 0]
    ensures Exec(SMALL, s, 3, Go(0)) == TwoLinked()
  {
    Buckets();
    hide Bucket;
    var none: seq<nat> := [];
    assert none + [2] == [2];
    assert Exec(SMALL, s, 3, Go(0)).mem == TwoLinked().mem;
    assert Exec(SMALL, s, 3, Go(0)).threads == TwoLinked().threads;
  }

  lemma ReachThreeTaken()
    ensures Reachable(SMALL, ThreeTaken())
  {
    Buckets();
    hide Bucket, Reachable;
    ReachTwoLinked();
    var s := TwoLinked();
    Looks(SMALL, s, 1, 1);
    Skips(SMALL, Moved(s, 1, Alloc(1, 1, 0, 0)), 1);
    assert Moved(Moved(s, 1, Alloc(1, 1, 0, 0)), 1, Alloc(1, 1, 0, 1)) == Moved(s, 1, Alloc(1, 1, 0, 1));
    Skips(SMALL, Moved(s, 1, Alloc(1, 1, 0, 1)), 1);
    assert Moved(Moved(s, 1, Alloc(1, 1, 0, 1)), 1, Alloc(1, 1, 0, 2)) == Moved(s, 1, Alloc(1, 1, 0, 2));
    var s1 := Moved(s, 1, Alloc(1, 1, 0, 2));
    Claims(SMALL, s1, 1);
    var s2 := Claimed(SMALL, s1, 1);
    assert s2 == At(Slots4([9, 1, 1, 1], [0, 0, 0, 0], [None, Some(2), Some(3), Some(1)], true),
                       [Idle, Construct(1, 1, 0, 3), Construct(0, 1, 0, 1), StateUp(0, 2)]);
    Writes(SMALL, s2, 1);
    assert Written(SMALL, s2, 1) == ThreeTaken();
  }

  /** The run goes on with a step from `m`, its last state, to `m'`. */
  lemma OnTo(s: State, moves: seq<(nat, Action)>, m: State, t: nat, m': State) returns (more: seq<(nat, Action)>)
    requires m == Run(SMALL, s, moves) && m' == Exec(SMALL, m, t, Go(0))
    ensures m' == Run(SMALL, s, more) && more == moves + [(t, Go(0))]
  {
    more := moves + [(t, Go(0))];
    assert more[..|more| - 1] == moves;
  }

  function Six(): seq<(nat, Action)> { [(2, Go(0)), (2, Go(0)), (2, Go(0)), (2, Go(0)), (2, Go(0)), (2, Go(0))] }

  lemma LosesRace(s: State, w: nat, k: Key, o: Option<nat>)
    requires s.mem == Slots4([9, 1, 1, w], [0, 0, 0, k], [None, Some(2), Some(3), o], true)
    requires s.args == [0, 0, 0, 0] && |s.threads| == 4 && s.threads[2] == Construct(0, 1, 0, 1)
    ensures Exec(SMALL, s, 2, Go(0)) == Moved(s, 2, SetNext(0, 1, 0, 1))
    ensures Exec(SMALL, Moved(s, 2, SetNext(0, 1, 0, 1)), 2, Go(0)) == Moved(s, 2, Link(0, 1, 0, 1))
    ensures Exec(SMALL, Moved(s, 2, Link(0, 1, 0, 1)), 2, Go(0)) == Moved(s, 2, FindHead(0, Again(9, 1, 1)))
  {
    Buckets();
    hide Bucket;
    var m := s.mem;
    assert m.keys[1 := 0] == m.keys && m.next[1 := 0] == m.next;
  }

  lemma FindsKey(s: State, w: nat, k: Key, o: Option<nat>)
    requires s.mem == Slots4([9, 1, 1, w], [0, 0, 0, k], [None, Some(2), Some(3), o], true)
    requires s.args == [0, 0, 0, 0] && |s.threads| == 4
    ensures var walk := Walk(0, Again(9, 1, 1), 2, 1, 1, true);
      && Exec(SMALL, Moved(s, 2, FindHead(0, Again(9, 1, 1))), 2, Go(0)) == Moved(s, 2, walk)
      && Exec(SMALL, Moved(s, 2, walk), 2, Go(0)) == Moved(s, 2, Abort(0, 1, 2))
    ensures Exec(SMALL, Moved(s, 2, Abort(0, 1, 2)), 2, Go(0)) ==
      At(Slots4([9, 0, 1, w], [0, 0, 0, k], [None, None, Some(3), o], true), s.threads[2 := Done(0, Existing(2))])
  {
    Buckets();
    hide Bucket;
    var m := s.mem;
    assert m.words[1 := 0] == [9, 0, 1, w] && m.owner[1 := None] == [None, None, Some(3), o];
  }

  /** Thread 2 writes its pair, fails to link it, finds key 0 and gives slot 1 back. */
  lemma GivesBack(s: State, w: nat, k: Key, o: Option<nat>)
    requires s.mem == Slots4([9, 1, 1, w], [0, 0, 0, k], [None, Some(2), Some(3), o], true)
    requires s.args == [0, 0, 0, 0] && |s.threads| == 4 && s.threads[2] == Construct(0, 1, 0, 1)
    ensures Run(SMALL, s, Six()) ==
      At(Slots4([9, 0, 1, w], [0, 0, 0, k], [None, None, Some(3), o], true), s.threads[2 := Done(0, Existing(2))])
  {
    var s1, s2 := Moved(s, 2, SetNext(0, 1, 0, 1)), Moved(s, 2, Link(0, 1, 0, 1));
    var s3, s4 := Moved(s, 2, FindHead(0, Again(9, 1, 1))), Moved(s, 2, Walk(0, Again(9, 1, 1), 2, 1, 1, true));
    var s5 := Moved(s, 2, Abort(0, 1, 2));
    var s6 :=
      At(Slots4([9, 0, 1, w], [0, 0, 0, k], [None, None, Some(3), o], true), s.threads[2 := Done(0, Existing(2))]);
    assert Run(SMALL, s, []) == s;
    hide Run, Exec;
    LosesRace(s, w, k, o);
    FindsKey(s, w, k, o);
    var moves := OnTo(s, [], s, 2, s1);
    moves := OnTo(s, moves, s1, 2, s2);
    moves := OnTo(s, moves, s2, 2, s3);
    moves := OnTo(s, moves, s3, 2, s4);
    moves := OnTo(s, moves, s4, 2, s5);
    moves := OnTo(s, moves, s5, 2, s6);
    assert moves == Six();
  }

  lemma ReachOneFree()
    ensures Reachable(SMALL, OneFree())
  {
    hide Reachable, Run;
    ReachThreeTaken();
    GivesBack(ThreeTaken(), 1, 1, Some(1));
    assert OneFree().threads == ThreeTaken().threads[2 := Done(0, Existing(2))];
    ReachableOn(SMALL, ThreeTaken(), Six());
  }

  lemma ReachAboutToLink()
    ensures Reachable(SMALL, AboutToLink())
  {
    Buckets();
    hide Bucket, Reachable;
    ReachOneFree();
    var s := OneFree();
    Then(SMALL, s, 1, Go(0));
    var s1 := Moved(s, 1, FindHead(1, Again(0, 0, 3)));
    assert Exec(SMALL, s, 1, Go(0)) == s1;
    Then(SMALL, s1, 1, Go(0));
    var s2 := Moved(s, 1, Walk(1, Again(0, 0, 3), 0, 0, 0, false));
    assert Exec(SMALL, s1, 1, Go(0)) == s2;
    Then(SMALL, s2, 1, Go(0));
    var s3 := Moved(s, 1, SetNext(1, 0, 0, 3));
    assert Exec(SMALL, s2, 1, Go(0)) == s3;
    Then(SMALL, s3, 1, Go(0));
    assert Exec(SMALL, s3, 1, Go(0)) == AboutToLink();
  }

  // ----- The call -----

  /** `m` follows from `s` by `call`, a call of thread 0 to insert key 5, and slot 1 was free
      throughout. */
  ghost predicate Came(s: State, call: seq<(nat, Action)>, m: State) {
    && IsCall(call, 0, StartInsert(5, 0)) && m == Run(SMALL, s, call)
    && forall p :: 0 <= p <= |call| ==> StateOf(WordAt(Run(SMALL, s, call[..p]), 1)) == EMPTY
  }

  lemma Goes(s: State, call: seq<(nat, Action)>, m: State, t: nat, m': State)
    requires Came(s, call, m) && m' == Exec(SMALL, m, t, Go(0)) && StateOf(WordAt(m', 1)) == EMPTY
    ensures Came(s, call + [(t, Go(0))], m')
  {
    hide Exec, StateOf, WordAt;
    var more := call + [(t, Go(0))];
    assert more[..|more| - 1] == call;
    forall p | 0 <= p <= |more| ensures StateOf(WordAt(Run(SMALL, s, more[..p]), 1)) == EMPTY {
      if p <= |call| {
        assert more[..p] == call[..p];
      } else {
        assert more[..p] == more;
      }
    }
  }

  lemma Begins(s: State, m: State)
    requires m == Exec(SMALL, s, 0, StartInsert(5, 0))
    requires StateOf(WordAt(s, 1)) == EMPTY && StateOf(WordAt(m, 1)) == EMPTY
    ensures Came(s, [(0, StartInsert(5, 0))], m)
  {
    hide Exec, StateOf, WordAt;
    var call := [(0, StartInsert(5, 0))];
    assert call[..0] == [] && call[..1] == call;
    assert Run(SMALL, s, []) == s && Run(SMALL, s, call) == m;
  }

  /** Thread 1 has linked key 1, and thread 0 is at its last tries. */
  function Linked1(tries: nat): (r: State)
    ensures |r.threads| == 4
  {
    var s := AboutToLink();
    At(
      s.mem.(words := [9, 12, 1, 1], chains := [[2], [3], [], []], linkedAt := [None, None, Some((0, 0)), Some((1, 0))],
             nodeOf := map[0 := 2, 1 := 3], winner := map[0 := 3, 1 := 1]),
      [Alloc(5, 0, 0, tries), StateUp(1, 3), Done(0, Existing(2)), StateUp(0, 2)])
  }

  lemma LosesSlotOne() returns (call: seq<(nat, Action)>)
    ensures Came(AboutToLink(), call, Linked1(1))
  {
    Buckets();
    hide Bucket, Came;
    var s := AboutToLink();
    var s1, s2 := Moved(s, 0, LoadPrev(5)), Moved(s, 0, FindHead(5, First(0, 0)));
    var s3, s4 := Moved(s, 0, Walk(5, First(0, 0), 0, 0, 0, false)), Moved(s, 0, Alloc(5, 0, 0, 0));
    var s5 := Moved(s, 0, AllocCas(5, 0, 0, 0, 1, 0));
    call := [(0, StartInsert(5, 0))];
    Begins(s, s1);
    Goes(s, call, s1, 0, s2);
    call := call + [(0, Go(0))];
    Goes(s, call, s2, 0, s3);
    call := call + [(0, Go(0))];
    Goes(s, call, s3, 0, s4);
    call := call + [(0, Go(0))];
    Goes(s, call, s4, 0, s5);
    call := call + [(0, Go(0))];
    call := LinksMeanwhile(s, call, s5);
  }

  lemma LinksMeanwhile(s: State, before: seq<(nat, Action)>, m: State) returns (call: seq<(nat, Action)>)
    requires Came(s, before, m) && m == Moved(AboutToLink(), 0, AllocCas(5, 0, 0, 0, 1, 0))
    ensures Came(s, call, Linked1(1))
  {
    Buckets();
    hide Bucket, Came;
    var m1 := Linked1(0).(threads := Linked1(0).threads[0 := AllocCas(5, 0, 0, 0, 1, 0)]);
    var none: seq<nat> := [];
    assert none + [3] == [3];
    assert Exec(SMALL, m, 1, Go(0)).mem == m1.mem;
    Goes(s, before, m, 1, m1);
    call := before + [(1, Go(0))];
    assert Exec(SMALL, m1, 0, Go(0)) == Linked1(1);
    Goes(s, call, m1, 0, Linked1(1));
    call := call + [(0, Go(0))];
  }

  lemma OneMore(tries: nat)
    requires 1 <= tries < MAX_TRIES
    ensures Exec(SMALL, Linked1(tries), 0, Go(0)) == Linked1(tries + 1)
  {
    Buckets();
    hide Bucket;
    var m := Linked1(tries);
    Skips(SMALL, m, 0);
    hide Exec;
    assert m.threads[0 := Alloc(5, 0, 0, tries + 1)] == Linked1(tries + 1).threads;
  }

  lemma NoMore()
    ensures Exec(SMALL, Linked1(MAX_TRIES), 0, Go(0)) == Moved(Linked1(MAX_TRIES), 0, Done(5, BadAlloc))
  {
    hide Bucket;
  }

  lemma StillFree(tries: nat, l: Local)
    ensures StateOf(WordAt(Moved(Linked1(tries), 0, l), 1)) == EMPTY
    ensures StateOf(WordAt(Linked1(tries), 1)) == EMPTY
  {
  }

  /** All other slots are in use, and a random choice may be slot 0 every time. */
  lemma {:induction false} TriesOn(s: State, before: seq<(nat, Action)>, tries: nat) returns (call: seq<(nat, Action)>)
    requires Came(s, before, Linked1(tries)) && 1 <= tries <= MAX_TRIES
    ensures Came(s, call, Linked1(MAX_TRIES))
    decreases MAX_TRIES - tries
  {
    if tries == MAX_TRIES {
      return before;
    }
    hide *;
    OneMore(tries);
    StillFree(tries + 1, Idle);
    Goes(s, before, Linked1(tries), 0, Linked1(tries + 1));
    call := TriesOn(s, before + [(0, Go(0))], tries + 1);
  }

  /** A reachable state, and a call that ends without a slot although slot 1, the bucket's own
      and the first one tried, was free throughout. */
  lemma FreeSlotIsLost() returns (s: State, call: seq<(nat, Action)>)
    ensures Reachable(SMALL, s) && Free(SMALL, s, 0) && IsCall(call, 0, StartInsert(5, 0)) && Bucket(SMALL, 5) == 1
    ensures var s' := Run(SMALL, s, call); 0 < |s'.threads| && s'.threads[0] == Done(5, BadAlloc)
    ensures !SawUsed(SMALL, s, call, 1)
  {
    Buckets();
    hide Bucket, Exec, Run, Reachable;
    s := AboutToLink();
    ReachAboutToLink();
    call := LosesSlotOne();
    call := TriesOn(s, call, 1);
    NoMore();
    StillFree(MAX_TRIES, Done(5, BadAlloc));
    hide Linked1, StateOf, WordAt;
    var m' := Moved(Linked1(MAX_TRIES), 0, Done(5, BadAlloc));
    Goes(s, call, Linked1(MAX_TRIES), 0, m');
    call := call + [(0, Go(0))];
  }

  // ----- A first attempt that wins -----

  /** Thread 1 has looked for key 1 in vain: the word that it loaded carries thread 2's mark. */
  function Looked(): State { Moved(TwoLinked(), 1, Alloc(1, 1, 0, 0)) }

  function Five(): seq<(nat, Action)> { [(1, Go(0)), (1, Go(0)), (1, Go(0)), (1, Go(0)), (1, Go(0))] }

  function Taken(k: Key): Mem { Slots4([9, 1, 1, 0], [0, k, 0, 0], [None, Some(1), Some(3), None], true) }

  lemma TakesOne(s: State)
    requires s.mem == Slots4([9, 0, 1, 0], [0, 0, 0, 0], [None, None, Some(3), None], true)
    requires s.args == [0, 0, 0, 0] && |s.threads| == 4 && s.threads[1] == Alloc(1, 1, 0, 0)
    ensures Exec(SMALL, s, 1, Go(0)) == Moved(s, 1, AllocCas(1, 1, 0, 0, 1, 0))
    ensures Exec(SMALL, Moved(s, 1, AllocCas(1, 1, 0, 0, 1, 0)), 1, Go(0)) ==
      At(Taken(0), s.threads[1 := Construct(1, 1, 0, 1)])
  {
    Buckets();
    hide Bucket;
    var m := s.mem;
    assert m.words[1 := 1] == [9, 1, 1, 0] && m.owner[1 := Some(1)] == [None, Some(1), Some(3), None];
  }

  lemma LinksOne(s: State)
    requires |s.threads| == 4
    ensures Exec(SMALL, At(Taken(0), s.threads[1 := Construct(1, 1, 0, 1)]), 1, Go(0)) ==
      At(Taken(1), s.threads[1 := SetNext(1, 1, 0, 1)])
    ensures Exec(SMALL, At(Taken(1), s.threads[1 := SetNext(1, 1, 0, 1)]), 1, Go(0)) ==
      At(Taken(1), s.threads[1 := Link(1, 1, 0, 1)])
    ensures Exec(SMALL, At(Taken(1), s.threads[1 := Link(1, 1, 0, 1)]), 1, Go(0)).threads ==
      s.threads[1 := Done(1, New(1))]
  {
    Buckets();
    hide Bucket, LinkMem;
    var m := Taken(0);
    assert m.keys[1 := 1] == [0, 1, 0, 0] && m.next[1 := 0] == m.next;
  }

  /** Thread 1 takes slot 1, fills it, and its first compare-and-swap links it. */
  lemma TakesOwn(s: State)
    requires s.mem == Slots4([9, 0, 1, 0], [0, 0, 0, 0], [None, None, Some(3), None], true)
    requires s.args == [0, 0, 0, 0] && |s.threads| == 4 && s.threads[1] == Alloc(1, 1, 0, 0)
    ensures Run(SMALL, s, Five()).threads == s.threads[1 := Done(1, New(1))]
  {
    var s1 := Moved(s, 1, AllocCas(1, 1, 0, 0, 1, 0));
    var s2 := At(Taken(0), s.threads[1 := Construct(1, 1, 0, 1)]);
    var s3 := At(Taken(1), s.threads[1 := SetNext(1, 1, 0, 1)]);
    var s4 := At(Taken(1), s.threads[1 := Link(1, 1, 0, 1)]);
    var s5 := Exec(SMALL, s4, 1, Go(0));
    assert Run(SMALL, s, []) == s;
    hide Run, Exec, Taken;
    TakesOne(s);
    LinksOne(s);
    var moves := OnTo(s, [], s, 1, s1);
    moves := OnTo(s, moves, s1, 1, s2);
    moves := OnTo(s, moves, s2, 1, s3);
    moves := OnTo(s, moves, s3, 1, s4);
    moves := OnTo(s, moves, s4, 1, s5);
    assert moves == Five();
  }

  /** A slot can be linked into its own bucket by the first compare-and-swap, although the word
      that this expects was loaded before the slot was allocated. In the reachable state `s`
      thread 1 has loaded the word of bucket 1 and is about to allocate; thread 2 gives slot 1
      back; thread 1 takes it, fills it, and its first compare-and-swap links it. */
  lemma FirstAttemptCanWin() returns (s: State, more: seq<(nat, Action)>)
    ensures Reachable(SMALL, s) && Bucket(SMALL, 1) == 1
    ensures Sized(SMALL, s.mem) && |s.threads| == 4 && s.threads[1] == Alloc(1, s.mem.words[1], 0, 0)
    ensures more == Six() + Five()
    ensures var s' := Run(SMALL, s, more); |s'.threads| == 4 && s'.threads[1] == Done(1, New(1))
  {
    Buckets();
    hide Bucket, Run, Exec, Reachable;
    s, more := Looked(), Six() + Five();
    ReachTwoLinked();
    Looks(SMALL, TwoLinked(), 1, 1);
    GivesBack(s, 0, 0, None);
    RunAppend(SMALL, s, Six(), Five());
    TakesOwn(Run(SMALL, s, Six()));
  }
}
