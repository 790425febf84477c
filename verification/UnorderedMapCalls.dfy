/** What the answers of the insert-only map mean over whole runs: each one was right at an
    instant of its call, and each key of the map has exactly one call that says it
    inserted it. */
module UnorderedMapCalls {
  import opened Common
  import opened UnorderedMap

  // ----- One true answer per key -----

  /** The answers "inserted" of a run, in order: which key, and which thread's call. */
  function Wins(cfg: Config, s: State, schedule: seq<(nat, Action)>): seq<(Key, nat)> {
    if |schedule| == 0 then []
    else
      var less, last := schedule[..|schedule| - 1], schedule[|schedule| - 1];
      Wins(cfg, s, less) + NewWin(Run(cfg, s, less), Run(cfg, s, schedule), last.0)
  }

  /** The answer that thread `t`'s step gives, if it ends a call that inserted. */
  function NewWin(s: State, s': State, t: nat): seq<(Key, nat)> {
    if t < |s.threads| && t < |s'.threads| && !s.threads[t].Done? && s'.threads[t].Done? && s'.threads[t].result.New?
    then [(s'.threads[t].key, t)]
    else []
  }

  /** Thread `t` has linked `k` and is about to say so. */
  predicate Telling(s: State, t: nat, k: Key) {
    t < |s.threads| && s.threads[t].StateUp? && s.threads[t].key == k
  }

  predicate Told(wins: seq<(Key, nat)>, k: Key) {
    exists i :: 0 <= i < |wins| && wins[i].0 == k
  }

  predicate WinOk(s: State, win: (Key, nat)) {
    win.0 in s.mem.nodeOf && Won(s.mem, win.0, win.1) && !Telling(s, win.1, win.0)
  }

  /** What thread `t` still stands at is on record. */
  predicate OnRecord(s: State, wins: seq<(Key, nat)>, t: nat)
    requires t < |s.threads|
  {
    s.threads[t].Done? && s.threads[t].result.New? ==> (s.threads[t].key, t) in wins
  }

  ghost predicate Accounted(s: State, wins: seq<(Key, nat)>) {
    && (forall i, j :: 0 <= i < j < |wins| ==> wins[i].0 != wins[j].0)
    && (forall i :: 0 <= i < |wins| ==> WinOk(s, wins[i]))
    && (forall t :: 0 <= t < |s.threads| ==> OnRecord(s, wins, t))
    && (forall k :: k in s.mem.nodeOf ==> k in s.mem.winner && (Told(wins, k) || Telling(s, s.mem.winner[k], k)))
  }

  /** What a step does to the map, the winners and the threads that are about to tell. */
  datatype Effect = Nothing | LinkOnly(k: Key, idx: nat) | LinkAndTell(k: Key, idx: nat) | Tell(k: Key, idx: nat)

  ghost predicate Shows(s: State, s': State, t: nat, e: Effect) {
    && |s'.threads| == |s.threads| && (forall u :: 0 <= u < |s.threads| && u != t ==> s'.threads[u] == s.threads[u])
    && match e
       case Nothing =>
         && s'.mem.nodeOf == s.mem.nodeOf && s'.mem.winner == s.mem.winner && NewWin(s, s', t) == []
         && (t < |s.threads| ==> s'.threads[t].StateUp? == s.threads[t].StateUp?)
         && (t < |s.threads| && (s.threads[t].StateUp? || (s'.threads[t].Done? && s'.threads[t].result.New?)) ==>
               s'.threads[t] == s.threads[t])
       case LinkOnly(k, idx) =>
         && t < |s.threads| && s.threads[t].Link? && k !in s.mem.nodeOf
         && s'.mem.nodeOf == s.mem.nodeOf[k := idx] && s'.mem.winner == s.mem.winner[k := t]
         && s'.threads[t] == StateUp(k, idx) && NewWin(s, s', t) == []
       case LinkAndTell(k, idx) =>
         && t < |s.threads| && s.threads[t].Link? && k !in s.mem.nodeOf
         && s'.mem.nodeOf == s.mem.nodeOf[k := idx] && s'.mem.winner == s.mem.winner[k := t]
         && s'.threads[t] == Done(k, New(idx)) && NewWin(s, s', t) == [(k, t)]
       case Tell(k, idx) =>
         && t < |s.threads| && s.threads[t] == StateUp(k, idx) && k in s.mem.nodeOf && Won(s.mem, k, t)
         && s'.mem.nodeOf == s.mem.nodeOf && s'.mem.winner == s.mem.winner
         && s'.threads[t] == Done(k, New(idx)) && NewWin(s, s', t) == [(k, t)]
  }

  lemma LinkShows(cfg: Config, s: State, t: nat, cand: nat) returns (e: Effect)
    requires Inv(cfg, s) && t < |s.threads| && s.threads[t].Link?
    ensures Shows(s, Exec(cfg, s, t, Go(cand)), t, e)
  {
    InvParts(cfg, s, t);
    var l := s.threads[t];
    if s.mem.words[Bucket(cfg, l.key)] == l.prev {
      LinkedKeyIsNew(cfg, s, t);
      e := if Bucket(cfg, l.key) == l.idx then LinkAndTell(l.key, l.idx) else LinkOnly(l.key, l.idx);
    } else {
      e := Nothing;
    }
    hide Inv, Bucket, LinkWord;
  }

  lemma StepShows(cfg: Config, s: State, t: nat, a: Action) returns (e: Effect)
    requires Inv(cfg, s)
    ensures Shows(s, Exec(cfg, s, t, a), t, e)
  {
    if t < |s.threads| && a.Go? && s.threads[t].Link? {
      e := LinkShows(cfg, s, t, a.cand);
    } else if t < |s.threads| && a.Go? && s.threads[t].StateUp? {
      InvParts(cfg, s, t);
      e := Tell(s.threads[t].key, s.threads[t].idx);
      hide Inv, Bucket;
    } else {
      e := Nothing;
      hide Inv, Bucket;
    }
  }

  lemma AccountedStep(s: State, s': State, t: nat, e: Effect, wins: seq<(Key, nat)>)
    requires Accounted(s, wins) && Shows(s, s', t, e)
    ensures Accounted(s', wins + NewWin(s, s', t))
  {
    var more := wins + NewWin(s, s', t);
    hide NewWin;
    forall k | k in s'.mem.nodeOf
      ensures k in s'.mem.winner && (Told(more, k) || Telling(s', s'.mem.winner[k], k))
    {
      if Told(wins, k) {
        var i :| 0 <= i < |wins| && wins[i].0 == k;
        assert more[i].0 == k;
      }
      if |more| > |wins| {
        assert Told(more, more[|wins|].0);
      }
    }
    forall i | 0 <= i < |wins|
      ensures WinOk(s', wins[i])
    {
      assert WinOk(s, wins[i]);
    }
    forall u | 0 <= u < |s'.threads|
      ensures OnRecord(s', more, u)
    {
      assert OnRecord(s, wins, u);
      if |more| > |wins| {
        assert more[|wins|] in more;
      }
    }
  }

  lemma {:induction false} WinsAccount(cfg: Config, n: nat, schedule: seq<(nat, Action)>)
    requires cfg.n > 0
    ensures Inv(cfg, Run(cfg, Initial(cfg, n), schedule))
    ensures Accounted(Run(cfg, Initial(cfg, n), schedule), Wins(cfg, Initial(cfg, n), schedule))
    decreases |schedule|
  {
    InitialInv(cfg, n);
    RunInv(cfg, Initial(cfg, n), schedule);
    if |schedule| > 0 {
      hide Inv, Exec, Accounted, Shows, NewWin;
      var less, last := schedule[..|schedule| - 1], schedule[|schedule| - 1];
      WinsAccount(cfg, n, less);
      var s := Run(cfg, Initial(cfg, n), less);
      var e := StepShows(cfg, s, last.0, last.1);
      AccountedStep(s, Exec(cfg, s, last.0, last.1), last.0, e, Wins(cfg, Initial(cfg, n), less));
    }
  }

  /** Over a whole run no two calls say that they inserted the same key, be they of one
      thread or of two; what a thread still stands at is among those answers; and all
      answers of inserts agree on where the key is. */
  lemma OneWinnerPerKey(cfg: Config, n: nat, schedule: seq<(nat, Action)>, t: nat, u: nat, k: Key, i: nat, j: nat)
    requires cfg.n > 0
    ensures var s, wins := Run(cfg, Initial(cfg, n), schedule), Wins(cfg, Initial(cfg, n), schedule);
      && (forall x, y :: 0 <= x < y < |wins| ==> wins[x].0 != wins[y].0)
      && (t < |s.threads| && s.threads[t] == Done(k, New(i)) ==> (k, t) in wins && Has(s.mem, k, i))
      && (t < |s.threads| && u < |s.threads| && s.threads[t] == Done(k, New(i))
          && (s.threads[u] == Done(k, New(j)) || s.threads[u] == Done(k, Existing(j))) ==>
            i == j && (s.threads[u].result.New? ==> t == u))
  {
    WinsAccount(cfg, n, schedule);
    var s, wins := Run(cfg, Initial(cfg, n), schedule), Wins(cfg, Initial(cfg, n), schedule);
    hide Run, Wins;
    if t < |s.threads| {
      InvParts(cfg, s, t);
      assert OnRecord(s, wins, t);
    }
    if u < |s.threads| {
      InvParts(cfg, s, u);
    }
    hide Inv, Accounted, Telling;
  }

  /** Over a whole run every key of the map has exactly one call that said it inserted it,
      or one thread, and no other, that has linked it and says so with its next step; and
      only keys of the map have either. */
  lemma EveryKeyWasWon(cfg: Config, n: nat, schedule: seq<(nat, Action)>, k: Key)
    requires cfg.n > 0
    ensures var s, wins := Run(cfg, Initial(cfg, n), schedule), Wins(cfg, Initial(cfg, n), schedule);
      && (k in s.mem.nodeOf <==> Told(wins, k) || exists t: nat :: Telling(s, t, k))
      && !(Told(wins, k) && exists t: nat :: Telling(s, t, k))
      && (forall t: nat, u: nat :: Telling(s, t, k) && Telling(s, u, k) ==> t == u)
      && (forall t: nat, cand: nat :: Telling(s, t, k) ==>
            k in s.mem.nodeOf && Exec(cfg, s, t, Go(cand)).threads == s.threads[t := Done(k, New(s.mem.nodeOf[k]))])
  {
    WinsAccount(cfg, n, schedule);
    var s, wins := Run(cfg, Initial(cfg, n), schedule), Wins(cfg, Initial(cfg, n), schedule);
    hide Run, Wins;
    forall t: nat | Telling(s, t, k)
      ensures k in s.mem.nodeOf && Won(s.mem, k, t)
      ensures forall cand: nat :: Exec(cfg, s, t, Go(cand)).threads == s.threads[t := Done(k, New(s.mem.nodeOf[k]))]
    {
      InvParts(cfg, s, t);
    }
  }

  // ----- Whole calls -----

  function WordAt(s: State, b: nat): nat {
    if b < |s.mem.words| then s.mem.words[b] else 0
  }

  predicate InsertOf(start: Action, k: Key) { start.StartInsert? && start.k == k }

  predicate IsStart(a: Action) { a.StartFind? || a.StartInsert? }

  /** A schedule that begins with thread `t` starting a call and in which `t` starts no
      other. */
  ghost predicate IsCall(schedule: seq<(nat, Action)>, t: nat, start: Action) {
    && |schedule| > 0 && schedule[0] == (t, start) && IsStart(start)
    && forall i :: 0 < i < |schedule| && schedule[i].0 == t ==> !IsStart(schedule[i].1)
  }

  /** `s'` is where one call of `t`, finished or not, can bring `s` while the other
      threads run. */
  ghost predicate CallRan(cfg: Config, s: State, s': State, t: nat, start: Action) {
    exists schedule :: IsCall(schedule, t, start) && s' == Run(cfg, s, schedule)
  }

  /** At an instant the map held `k`, or did not, as `was` says. */
  ghost predicate SawMember(cfg: Config, s: State, schedule: seq<(nat, Action)>, k: Key, was: bool) {
    exists i :: 0 <= i <= |schedule| && (k in Run(cfg, s, schedule[..i]).mem.nodeOf) == was
  }

  /** The map has `k`, at `node`, with value `v`. */
  predicate HasPair(m: Mem, k: Key, v: Value, node: nat) { Has(m, k, node) && node < |m.vals| && m.vals[node] == v }

  /** The `i`-th step was `t`'s and put `k`, which the map did not hold, at `node` with value `v`. */
  ghost predicate AddsAt(cfg: Config, s: State, schedule: seq<(nat, Action)>, t: nat, k: Key, v: Value, node: nat,
                         i: nat)
  {
    && i < |schedule| && schedule[i].0 == t
    && k !in Run(cfg, s, schedule[..i]).mem.nodeOf && HasPair(Run(cfg, s, schedule[..i + 1]).mem, k, v, node)
  }

  ghost predicate Added(cfg: Config, s: State, schedule: seq<(nat, Action)>, t: nat, k: Key, v: Value, node: nat) {
    exists i: nat :: AddsAt(cfg, s, schedule, t, k, v, node, i)
  }

  /** Slot `i` was in use at an instant. */
  ghost predicate SawUsed(cfg: Config, s: State, schedule: seq<(nat, Action)>, i: nat) {
    exists p :: 0 <= p <= |schedule| && StateOf(WordAt(Run(cfg, s, schedule[..p]), i)) != EMPTY
  }

  ghost predicate SawWord(cfg: Config, s: State, schedule: seq<(nat, Action)>, i: nat, word: nat) {
    exists p :: 0 <= p <= |schedule| && WordAt(Run(cfg, s, schedule[..p]), i) == word
  }

  /** The list that slot `i` is the bucket of had one head at an instant and another at another. */
  ghost predicate HeadMoved(cfg: Config, s: State, schedule: seq<(nat, Action)>, i: nat) {
    exists v: nat, w: nat :: SawWord(cfg, s, schedule, i, v) && SawWord(cfg, s, schedule, i, w) && Head(v) != Head(w)
  }

  predicate Near(cfg: Config, k: Key, tries: nat, i: nat)
    requires cfg.n > 0
  {
    var b := Bucket(cfg, k);
    b <= i < cfg.n && i < b + tries && i < b + NEAR_TRIES
  }

  /** The first tries failed, each for a reason. */
  ghost predicate AllTried(cfg: Config, s: State, schedule: seq<(nat, Action)>, k: Key, tries: nat) {
    cfg.n > 0 && forall i: nat :: Near(cfg, k, tries, i) ==> TriedAt(cfg, s, schedule, i)
  }

  ghost predicate TriedAt(cfg: Config, s: State, schedule: seq<(nat, Action)>, i: nat) {
    SawUsed(cfg, s, schedule, i) || HeadMoved(cfg, s, schedule, i)
  }

  /** No step of `t` changed whether the map holds `k`. */
  ghost predicate ChangedNothing(cfg: Config, s: State, schedule: seq<(nat, Action)>, t: nat, k: Key) {
    forall i: nat :: i < |schedule| && schedule[i].0 == t ==>
      (k in Run(cfg, s, schedule[..i]).mem.nodeOf <==> k in Run(cfg, s, schedule[..i + 1]).mem.nodeOf)
  }

  /** The answer `r` to the call `start` was right, and a call that does not say that it inserted
      the key did not. */
  ghost predicate Justified(cfg: Config, s: State, schedule: seq<(nat, Action)>, t: nat, start: Action, r: Result)
    requires IsStart(start)
  {
    Right(cfg, s, schedule, t, start, r) && (r.New? || ChangedNothing(cfg, s, schedule, t, start.k))
  }

  /** The answer `r` to the call `start` was right at an instant of the run. */
  ghost predicate Right(cfg: Config, s: State, schedule: seq<(nat, Action)>, t: nat, start: Action, r: Result)
    requires IsStart(start)
  {
    var k := start.k;
    match r
    case Found(node, was) =>
      && SawMember(cfg, s, schedule, k, was) && (was <==> node != 0)
      && (was ==> Has(Run(cfg, s, schedule).mem, k, node))
    case Existing(node) => Has(Run(cfg, s, schedule).mem, k, node)
    case New(node) =>
      && start.StartInsert? && Added(cfg, s, schedule, t, k, start.v, node)
      && HasPair(Run(cfg, s, schedule).mem, k, start.v, node)
    case BadAlloc => SawMember(cfg, s, schedule, k, false) && AllTried(cfg, s, schedule, k, NEAR_TRIES)
    case Threw => SawMember(cfg, s, schedule, k, false)
  }

  /** `CallRan` with an answer that the run justifies. */
  ghost predicate CallGave(cfg: Config, s: State, s': State, t: nat, start: Action, r: Result) {
    && IsStart(start)
    && exists schedule ::
         IsCall(schedule, t, start) && s' == Run(cfg, s, schedule) && Justified(cfg, s, schedule, t, start, r)
  }

  predicate CallFits(start: Action, k: Key, call: Call) {
    if call.Lookup? then start == StartFind(k) else InsertOf(start, k)
  }

  /** What the run has shown by the time the call is at `l`. */
  ghost predicate SoFar(cfg: Config, s: State, schedule: seq<(nat, Action)>, t: nat, start: Action, l: Local) {
    match l
    case Idle => false
    case LoadPrev(k) => InsertOf(start, k)
    case FindHead(k, call) => CallFits(start, k, call) && (call.Again? ==> SawMember(cfg, s, schedule, k, false))
    case Walk(k, call, _, _, _, was) =>
      && CallFits(start, k, call) && SawMember(cfg, s, schedule, k, was)
      && (call.Again? ==> SawMember(cfg, s, schedule, k, false))
    case Alloc(k, _, _, _) => InsertOf(start, k) && SawMember(cfg, s, schedule, k, false)
    case AllocCas(k, _, _, _, _, _) => InsertOf(start, k) && SawMember(cfg, s, schedule, k, false)
    case Construct(k, _, _, _) => InsertOf(start, k) && SawMember(cfg, s, schedule, k, false)
    case SetNext(k, _, _, _) => InsertOf(start, k) && SawMember(cfg, s, schedule, k, false)
    case Link(k, _, _, _) => InsertOf(start, k) && SawMember(cfg, s, schedule, k, false)
    case StateUp(k, idx) => InsertOf(start, k) && Added(cfg, s, schedule, t, k, start.v, idx)
    case Abort(k, _, _) => InsertOf(start, k)
    case Done(k, r) =>
      && (if r.Found? then start == StartFind(k) else InsertOf(start, k))
      && (r.Found? ==> SawMember(cfg, s, schedule, k, r.was))
      && (r.New? ==> Added(cfg, s, schedule, t, k, start.v, r.node))
      && (r.BadAlloc? || r.Threw? ==> SawMember(cfg, s, schedule, k, false))
  }

  /** A longer run has shown as much. */
  lemma SawMore(cfg: Config, s: State, less: seq<(nat, Action)>, schedule: seq<(nat, Action)>, t: nat, k: Key,
                was: bool, v: Value, node: nat)
    requires less <= schedule
    ensures SawMember(cfg, s, less, k, was) ==> SawMember(cfg, s, schedule, k, was)
    ensures Added(cfg, s, less, t, k, v, node) ==> Added(cfg, s, schedule, t, k, v, node)
  {
    hide Run;
    if SawMember(cfg, s, less, k, was) {
      var i :| 0 <= i <= |less| && (k in Run(cfg, s, less[..i]).mem.nodeOf) == was;
      assert less[..i] == schedule[..i];
    }
    if Added(cfg, s, less, t, k, v, node) {
      var i: nat :| AddsAt(cfg, s, less, t, k, v, node, i);
      assert less[..i] == schedule[..i] && less[..i + 1] == schedule[..i + 1];
      assert AddsAt(cfg, s, schedule, t, k, v, node, i);
    }
  }

  lemma SoFarMore(cfg: Config, s: State, less: seq<(nat, Action)>, schedule: seq<(nat, Action)>, t: nat, start: Action,
                  l: Local)
    requires less <= schedule && SoFar(cfg, s, less, t, start, l)
    ensures SoFar(cfg, s, schedule, t, start, l)
  {
    hide SawMember, Added;
    var node := if l.StateUp? then l.idx else if l.Done? && l.result.New? then l.result.node else 0;
    var v := if start.StartInsert? then start.v else 0;
    SawMore(cfg, s, less, schedule, t, start.k, false, v, node);
    SawMore(cfg, s, less, schedule, t, start.k, true, v, node);
  }

  lemma LastStates(cfg: Config, s: State, less: seq<(nat, Action)>, schedule: seq<(nat, Action)>, t: nat, a: Action)
    requires schedule == less + [(t, a)]
    ensures schedule[..|less|] == less && schedule[..|less| + 1] == schedule && less <= schedule
    ensures Run(cfg, s, schedule) == Exec(cfg, Run(cfg, s, less), t, a)
  {
    assert schedule[..|schedule| - 1] == less;
  }

  /** A walk that reaches the end of the chain had not the key. */
  lemma EndMeansAbsent(cfg: Config, m: State, t: nat)
    requires Inv(cfg, m) && t < |m.threads| && m.threads[t].Walk?
    ensures m.threads[t].node < cfg.n && (m.threads[t].node == 0 ==> !m.threads[t].was)
  {
    InvParts(cfg, m, t);
    if m.threads[t].node == 0 {
      NoNodeLeft(cfg, m, t);
    }
  }

  lemma WalkGoes(cfg: Config, m: State, t: nat, a: Action)
    requires Inv(cfg, m) && t < |m.threads| && m.threads[t].Walk? && a.Go?
    ensures Sized(cfg, m.mem) && m.threads[t].node < cfg.n && (m.threads[t].node == 0 ==> !m.threads[t].was)
    ensures t < |Exec(cfg, m, t, a).threads| && Exec(cfg, m, t, a).threads[t] == WalkStep(cfg, m.mem, m.threads[t])
  {
    EndMeansAbsent(cfg, m, t);
    InvParts(cfg, m, t);
    hide Inv, Bucket, WalkStep, ThreadOk;
  }

  /** How a call goes on at the accesses that are neither a find's nor the link. */
  predicate Follows(l: Local, l': Local) {
    match l
    case LoadPrev(k) => l'.FindHead? && l'.key == k && l'.call.First?
    case Alloc(k, _, _, _) => (l'.Alloc? || l'.AllocCas? || (l'.Done? && l'.result.BadAlloc?)) && l'.key == k
    case AllocCas(k, _, _, _, _, _) => (l'.Alloc? || l'.Construct?) && l'.key == k
    case Construct(k, _, _, _) => (l'.SetNext? || (l'.Done? && l'.result.Threw?)) && l'.key == k
    case SetNext(k, _, _, _) => l'.Link? && l'.key == k
    case StateUp(k, idx) => l' == Done(k, New(idx))
    case Abort(k, _, existing) => l' == Done(k, Existing(existing))
    case _ => false
  }

  lemma FollowsSoFar(cfg: Config, s: State, schedule: seq<(nat, Action)>, t: nat, start: Action, l: Local, l': Local)
    requires SoFar(cfg, s, schedule, t, start, l) && Follows(l, l')
    ensures SoFar(cfg, s, schedule, t, start, l')
  {
    hide SawMember, Added;
  }

  lemma OtherGoes(cfg: Config, m: State, t: nat, a: Action)
    requires Inv(cfg, m) && t < |m.threads| && !IsStart(a)
    requires a.Throw? || !(m.threads[t].Walk? || m.threads[t].FindHead? || m.threads[t].Link?)
    ensures t < |Exec(cfg, m, t, a).threads|
    ensures Exec(cfg, m, t, a).threads[t] == m.threads[t] || Follows(m.threads[t], Exec(cfg, m, t, a).threads[t])
  {
    InvParts(cfg, m, t);
    hide Inv, Bucket, WalkStep, LinkMem, ThreadOk;
  }

  lemma WalkStepSoFar(cfg: Config, s: State, schedule: seq<(nat, Action)>, t: nat, start: Action, m: State)
    requires Sized(cfg, m.mem) && t < |m.threads| && m.threads[t].Walk?
    requires SoFar(cfg, s, schedule, t, start, m.threads[t])
    requires m.threads[t].node < cfg.n && (m.threads[t].node == 0 ==> !m.threads[t].was)
    ensures SoFar(cfg, s, schedule, t, start, WalkStep(cfg, m.mem, m.threads[t]))
  {
    hide SawMember, Added;
  }

  lemma WalkSoFar(cfg: Config, s: State, less: seq<(nat, Action)>, schedule: seq<(nat, Action)>, t: nat, start: Action,
                  a: Action)
    requires schedule == less + [(t, a)] && a.Go? && Inv(cfg, Run(cfg, s, less)) && t < |Run(cfg, s, less).threads|
    requires Run(cfg, s, less).threads[t].Walk? && SoFar(cfg, s, less, t, start, Run(cfg, s, less).threads[t])
    ensures t < |Run(cfg, s, schedule).threads| && SoFar(cfg, s, schedule, t, start, Run(cfg, s, schedule).threads[t])
  {
    var m := Run(cfg, s, less);
    LastStates(cfg, s, less, schedule, t, a);
    WalkGoes(cfg, m, t, a);
    SoFarMore(cfg, s, less, schedule, t, start, m.threads[t]);
    hide SoFar, Run, Inv, Exec, WalkStep;
    WalkStepSoFar(cfg, s, schedule, t, start, m);
  }

  lemma FindHeadSoFar(cfg: Config, s: State, less: seq<(nat, Action)>, schedule: seq<(nat, Action)>, t: nat,
                      start: Action, a: Action)
    requires schedule == less + [(t, a)] && a.Go? && Inv(cfg, Run(cfg, s, less)) && t < |Run(cfg, s, less).threads|
    requires Run(cfg, s, less).threads[t].FindHead? && SoFar(cfg, s, less, t, start, Run(cfg, s, less).threads[t])
    ensures t < |Run(cfg, s, schedule).threads| && SoFar(cfg, s, schedule, t, start, Run(cfg, s, schedule).threads[t])
  {
    var m := Run(cfg, s, less);
    LastStates(cfg, s, less, schedule, t, a);
    InvParts(cfg, m, t);
    SawMore(cfg, s, less, schedule, t, start.k, false, 0, 0);
    assert SawMember(cfg, s, schedule, start.k, start.k in m.mem.nodeOf);
    hide SawMember, Added, Run, Inv, Bucket, ThreadOk;
  }

  lemma LinkSoFar(cfg: Config, s: State, less: seq<(nat, Action)>, schedule: seq<(nat, Action)>, t: nat, start: Action,
                  a: Action)
    requires schedule == less + [(t, a)] && a.Go? && Inv(cfg, Run(cfg, s, less)) && t < |Run(cfg, s, less).threads|
    requires Run(cfg, s, less).threads[t].Link? && SoFar(cfg, s, less, t, start, Run(cfg, s, less).threads[t])
    requires HasArg(Run(cfg, s, less), t, start)
    ensures t < |Run(cfg, s, schedule).threads| && SoFar(cfg, s, schedule, t, start, Run(cfg, s, schedule).threads[t])
  {
    var m, l := Run(cfg, s, less), Run(cfg, s, less).threads[t];
    LastStates(cfg, s, less, schedule, t, a);
    SawMore(cfg, s, less, schedule, t, start.k, false, 0, 0);
    LinkGoes(cfg, m, t, a);
    hide Run, Exec, Inv, SawMember, HasPair;
    if !Run(cfg, s, schedule).threads[t].FindHead? {
      assert AddsAt(cfg, s, schedule, t, l.key, start.v, l.idx, |less|);
    }
    hide Added;
  }

  /** A link puts the thread's pair into the map, or the thread looks again. */
  lemma LinkGoes(cfg: Config, m: State, t: nat, a: Action)
    requires Inv(cfg, m) && Values(m) && t < |m.threads| && m.threads[t].Link? && a.Go?
    ensures t < |Exec(cfg, m, t, a).threads|
    ensures var m' := Exec(cfg, m, t, a); var l, l' := m.threads[t], m'.threads[t];
      || (l'.FindHead? && l'.key == l.key && l'.call.Again?)
      || (l.key !in m.mem.nodeOf && HasPair(m'.mem, l.key, m.args[t], l.idx)
          && (l' == StateUp(l.key, l.idx) || l' == Done(l.key, New(l.idx))))
  {
    InvParts(cfg, m, t);
    assert ValueAt(m, t);
    if m.mem.words[Bucket(cfg, m.threads[t].key)] == m.threads[t].prev {
      LinkedKeyIsNew(cfg, m, t);
    }
    hide Inv, Bucket, ThreadOk, LinkWord, Values;
  }

  lemma OtherOwnStep(cfg: Config, s: State, less: seq<(nat, Action)>, schedule: seq<(nat, Action)>, t: nat,
                     start: Action, a: Action)
    requires schedule == less + [(t, a)] && !IsStart(a) && Inv(cfg, Run(cfg, s, less))
    requires t < |Run(cfg, s, less).threads|
    requires var l := Run(cfg, s, less).threads[t];
      (a.Throw? || !(l.Walk? || l.FindHead? || l.Link?)) && SoFar(cfg, s, less, t, start, l)
    ensures t < |Run(cfg, s, schedule).threads| && SoFar(cfg, s, schedule, t, start, Run(cfg, s, schedule).threads[t])
  {
    var m, l := Run(cfg, s, less), Run(cfg, s, less).threads[t];
    LastStates(cfg, s, less, schedule, t, a);
    OtherGoes(cfg, m, t, a);
    SoFarMore(cfg, s, less, schedule, t, start, l);
    hide SoFar, Run, Inv, Exec, Follows;
    var l' := Run(cfg, s, schedule).threads[t];
    if l' != l {
      FollowsSoFar(cfg, s, schedule, t, start, l, l');
    }
  }

  lemma OwnStep(cfg: Config, s: State, less: seq<(nat, Action)>, schedule: seq<(nat, Action)>, t: nat, start: Action,
                a: Action)
    requires schedule == less + [(t, a)] && !IsStart(a) && Inv(cfg, Run(cfg, s, less))
    requires t < |Run(cfg, s, less).threads|
    requires SoFar(cfg, s, less, t, start, Run(cfg, s, less).threads[t]) && HasArg(Run(cfg, s, less), t, start)
    ensures t < |Run(cfg, s, schedule).threads| && SoFar(cfg, s, schedule, t, start, Run(cfg, s, schedule).threads[t])
  {
    hide Inv, Exec, SoFar, Run, HasArg;
    var l := Run(cfg, s, less).threads[t];
    if a.Go? && l.Walk? {
      WalkSoFar(cfg, s, less, schedule, t, start, a);
    } else if a.Go? && l.FindHead? {
      FindHeadSoFar(cfg, s, less, schedule, t, start, a);
    } else if a.Go? && l.Link? {
      LinkSoFar(cfg, s, less, schedule, t, start, a);
    } else {
      OtherOwnStep(cfg, s, less, schedule, t, start, a);
    }
  }

  lemma OtherThread(cfg: Config, s: State, t: nat, u: nat, a: Action)
    requires t < |s.threads| && u != t
    ensures var s' := Exec(cfg, s, u, a); |s'.threads| == |s.threads| && s'.threads[t] == s.threads[t]
  {
    hide Bucket, WalkStep, LinkMem;
  }

  // ----- Values -----

  /** The slot into which a thread has put its pair. */
  function FilledBy(l: Local): Option<nat> {
    match l
    case Construct(_, _, _, _) => None
    case Done(_, New(node)) => Some(node)
    case _ => Holds(l)
  }

  predicate ValueAt(s: State, t: nat)
    requires t < |s.threads| && t < |s.args|
  {
    FilledBy(s.threads[t]).Some? ==>
      var i := FilledBy(s.threads[t]).value; i < |s.mem.vals| && s.mem.vals[i] == s.args[t]
  }

  /** What a thread has put into its slot is the value of its call. */
  predicate Values(s: State) {
    |s.args| == |s.threads| && forall t :: 0 <= t < |s.threads| ==> ValueAt(s, t)
  }

  /** Thread `t` has the value that its call was started with. */
  predicate HasArg(s: State, t: nat, start: Action) {
    Values(s) && t < |s.threads| && (start.StartInsert? ==> s.args[t] == start.v)
  }

  /** A pair is written only by the thread that is constructing there. */
  lemma PairKept(cfg: Config, s: State, t: nat, a: Action, i: nat)
    requires Inv(cfg, s) && i < cfg.n && !(t < |s.threads| && s.threads[t].Construct? && s.threads[t].idx == i)
    ensures Sized(cfg, s.mem) && Sized(cfg, Exec(cfg, s, t, a).mem)
    ensures Exec(cfg, s, t, a).mem.vals[i] == s.mem.vals[i] && Exec(cfg, s, t, a).mem.keys[i] == s.mem.keys[i]
  {
    hide Bucket, WalkStep, LinkWord, Linked, Slots, Threads;
  }

  /** A pair that a thread has written, or that is linked, is in nobody else's hands. */
  lemma NotOthers(cfg: Config, s: State, t: nat, u: nat)
    requires Inv(cfg, s) && t < |s.threads| && u < |s.threads| && FilledBy(s.threads[u]).Some?
    ensures FilledBy(s.threads[u]).value < cfg.n
    ensures s.threads[t].Construct? ==> s.threads[t].idx != FilledBy(s.threads[u]).value
  {
    InvParts(cfg, s, t);
    InvParts(cfg, s, u);
    var l := s.threads[u];
    if l.Done? {
      InvBucket(cfg, s, l.key);
    } else {
      HeldIsOwned(cfg, s.mem, u, l);
    }
    hide Inv, Bucket;
  }

  lemma OwnValue(cfg: Config, s: State, t: nat, a: Action)
    requires Inv(cfg, s) && Values(s) && t < |s.threads|
    ensures var s' := Exec(cfg, s, t, a);
      && |s'.args| == |s.args| && |s'.threads| == |s.threads| && ValueAt(s', t)
      && s'.args[t] == (if a.StartInsert? && (s.threads[t].Idle? || s.threads[t].Done?) then a.v else s.args[t])
  {
    InvParts(cfg, s, t);
    assert ValueAt(s, t);
    hide Inv, Bucket, LinkWord, ThreadOk, CallOk;
    var s' := Exec(cfg, s, t, a);
    if s.threads[t].Walk? && a.Go? {
      WalkFills(cfg, s, t);
    }
  }

  lemma WalkFills(cfg: Config, s: State, t: nat)
    requires Sized(cfg, s.mem) && t < |s.threads| && s.threads[t].Walk? && s.threads[t].node < cfg.n
    ensures var l, l' := s.threads[t], WalkStep(cfg, s.mem, s.threads[t]);
      FilledBy(l').Some? ==> FilledBy(l') == FilledBy(l)
  {
  }

  lemma ValuesStep(cfg: Config, s: State, t: nat, a: Action)
    requires Inv(cfg, s) && Values(s)
    ensures Values(Exec(cfg, s, t, a))
  {
    var s' := Exec(cfg, s, t, a);
    if t < |s.threads| {
      OwnValue(cfg, s, t, a);
      forall u | 0 <= u < |s'.threads|
        ensures ValueAt(s', u)
      {
        if u != t {
          OtherThread(cfg, s, u, t, a);
          assert ValueAt(s, u);
          hide Inv, Exec;
          if FilledBy(s.threads[u]).Some? {
            NotOthers(cfg, s, t, u);
            PairKept(cfg, s, t, a, FilledBy(s.threads[u]).value);
          }
        }
      }
    }
  }

  lemma {:induction false} ValuesRun(cfg: Config, s: State, schedule: seq<(nat, Action)>)
    requires Inv(cfg, s) && Values(s)
    ensures Inv(cfg, Run(cfg, s, schedule)) && Values(Run(cfg, s, schedule))
  {
    if |schedule| > 0 {
      hide Inv, Exec, Values;
      var less, last := schedule[..|schedule| - 1], schedule[|schedule| - 1];
      ValuesRun(cfg, s, less);
      ExecInv(cfg, Run(cfg, s, less), last.0, last.1);
      ValuesStep(cfg, Run(cfg, s, less), last.0, last.1);
    }
  }

  lemma InitialValues(cfg: Config, n: nat)
    requires cfg.n > 0
    ensures Values(Initial(cfg, n))
  {
  }

  lemma {:induction false} CallArg(cfg: Config, s: State, t: nat, start: Action, schedule: seq<(nat, Action)>)
    requires Inv(cfg, s) && Values(s) && t < |s.threads| && (s.threads[t].Idle? || s.threads[t].Done?)
    requires IsCall(schedule, t, start)
    ensures HasArg(Run(cfg, s, schedule), t, start)
    decreases |schedule|
  {
    var n := |schedule| - 1;
    var less, last := schedule[..n], schedule[n];
    assert schedule == less + [last];
    ValuesRun(cfg, s, schedule);
    ValuesRun(cfg, s, less);
    LastStates(cfg, s, less, schedule, last.0, last.1);
    hide Inv, Exec, Values;
    if n == 0 {
      assert Run(cfg, s, less) == s;
      OwnValue(cfg, s, t, start);
    } else {
      CallArg(cfg, s, t, start, less);
      hide Run;
      ArgKept(cfg, Run(cfg, s, less), t, last.0, last.1);
    }
  }

  lemma ArgKept(cfg: Config, s: State, t: nat, u: nat, a: Action)
    requires Inv(cfg, s) && Values(s) && t < |s.threads| && !(u == t && IsStart(a))
    ensures var s' := Exec(cfg, s, u, a); t < |s'.threads| && t < |s'.args| && s'.args[t] == s.args[t]
  {
    if u == t {
      OwnValue(cfg, s, t, a);
      hide Inv, Exec;
    } else {
      OtherThread(cfg, s, t, u, a);
      hide Inv, Bucket, WalkStep, LinkMem;
    }
  }

  lemma {:induction false} CallSoFar(cfg: Config, s: State, t: nat, start: Action, schedule: seq<(nat, Action)>)
    requires Inv(cfg, s) && Values(s) && t < |s.threads| && (s.threads[t].Idle? || s.threads[t].Done?)
    requires IsCall(schedule, t, start)
    ensures var s' := Run(cfg, s, schedule);
      Inv(cfg, s') && t < |s'.threads| && SoFar(cfg, s, schedule, t, start, s'.threads[t])
    decreases |schedule|
  {
    var n := |schedule| - 1;
    var less, last := schedule[..n], schedule[n];
    assert schedule == less + [last];
    hide Inv;
    RunInv(cfg, s, schedule);
    LastStates(cfg, s, less, schedule, last.0, last.1);
    InvParts(cfg, s, t);
    if n == 0 {
      hide ExecGo, ExecThrow, ThreadOk;
      assert Run(cfg, s, less) == s;
    } else {
      hide Exec, SoFar, ThreadOk, HasArg, Values;
      CallSoFar(cfg, s, t, start, less);
      CallArg(cfg, s, t, start, less);
      if last.0 == t {
        OwnStep(cfg, s, less, schedule, t, start, last.1);
      } else {
        OtherThread(cfg, Run(cfg, s, less), t, last.0, last.1);
        SoFarMore(cfg, s, less, schedule, t, start, Run(cfg, s, less).threads[t]);
      }
    }
  }

  // ----- What a call does not change -----

  predicate Quiet(l: Local) { !l.StateUp? && !(l.Done? && l.result.New?) }

  /** One more step that does not change whether `k` is there, or is not `t`'s. */
  lemma NothingMore(cfg: Config, s: State, less: seq<(nat, Action)>, schedule: seq<(nat, Action)>,
                    t: nat, k: Key, u: nat, a: Action)
    requires schedule == less + [(u, a)] && ChangedNothing(cfg, s, less, t, k)
    requires u == t ==> (k in Run(cfg, s, less).mem.nodeOf <==> k in Run(cfg, s, schedule).mem.nodeOf)
    ensures ChangedNothing(cfg, s, schedule, t, k)
  {
    hide Run;
    forall i: nat | i < |schedule| && schedule[i].0 == t
      ensures k in Run(cfg, s, schedule[..i]).mem.nodeOf <==> k in Run(cfg, s, schedule[..i + 1]).mem.nodeOf
    {
      if i < |less| {
        assert less[..i] == schedule[..i] && less[..i + 1] == schedule[..i + 1] && less[i] == schedule[i];
      } else {
        assert schedule[..i] == less && schedule[..i + 1] == schedule;
      }
    }
  }

  lemma QuietStep(cfg: Config, m: State, t: nat, a: Action)
    requires Inv(cfg, m) && t < |m.threads|
    ensures var m' := Exec(cfg, m, t, a);
      && t < |m'.threads| && (Quiet(m'.threads[t]) ==> m'.mem.nodeOf == m.mem.nodeOf)
      && (!IsStart(a) && Quiet(m'.threads[t]) ==> Quiet(m.threads[t]))
  {
    var e := StepShows(cfg, m, t, a);
    if m.threads[t].Done? && !IsStart(a) {
      assert Exec(cfg, m, t, a) == m;
    }
    hide Inv, Exec;
  }

  lemma {:induction false} QuietCall(cfg: Config, s: State, t: nat, start: Action, schedule: seq<(nat, Action)>)
    requires Inv(cfg, s) && t < |s.threads| && (s.threads[t].Idle? || s.threads[t].Done?) && IsCall(schedule, t, start)
    ensures var s' := Run(cfg, s, schedule);
      t < |s'.threads| && (Quiet(s'.threads[t]) ==> ChangedNothing(cfg, s, schedule, t, start.k))
    decreases |schedule|
  {
    var n := |schedule| - 1;
    var less, last := schedule[..n], schedule[n];
    assert schedule == less + [last];
    hide Inv, Exec, ChangedNothing;
    RunInv(cfg, s, less);
    LastStates(cfg, s, less, schedule, last.0, last.1);
    if n == 0 {
      assert Run(cfg, s, less) == s;
      QuietStep(cfg, s, t, start);
      NothingYet(cfg, s, t, start.k);
    } else {
      QuietCall(cfg, s, t, start, less);
      hide Run;
      if last.0 == t {
        QuietStep(cfg, Run(cfg, s, less), t, last.1);
      } else {
        OtherThread(cfg, Run(cfg, s, less), t, last.0, last.1);
      }
    }
    if Quiet(Run(cfg, s, schedule).threads[t]) {
      NothingMore(cfg, s, less, schedule, t, start.k, last.0, last.1);
    }
  }

  lemma NothingYet(cfg: Config, s: State, t: nat, k: Key)
    ensures ChangedNothing(cfg, s, [], t, k)
  {
  }

  // ----- Allocations that fail -----

  /** What the run has shown about the slots near the bucket by the time the call is at `l`. */
  ghost predicate AllocSoFar(cfg: Config, s: State, schedule: seq<(nat, Action)>, l: Local) {
    match l
    case Alloc(k, _, _, tries) => AllTried(cfg, s, schedule, k, tries)
    case AllocCas(k, _, _, tries, i, seen) =>
      && AllTried(cfg, s, schedule, k, tries) && SawWord(cfg, s, schedule, i, seen)
      && i == Attempt(cfg, Bucket(cfg, k), tries, i) < cfg.n && StateOf(seen) == EMPTY
    case Done(k, r) => r.BadAlloc? ==> AllTried(cfg, s, schedule, k, NEAR_TRIES)
    case _ => true
  }

  lemma WordMore(cfg: Config, s: State, less: seq<(nat, Action)>, schedule: seq<(nat, Action)>, i: nat, word: nat)
    requires less <= schedule && SawWord(cfg, s, less, i, word)
    ensures SawWord(cfg, s, schedule, i, word)
  {
    hide Run, WordAt;
    var p :| 0 <= p <= |less| && WordAt(Run(cfg, s, less[..p]), i) == word;
    assert less[..p] == schedule[..p];
  }

  lemma TriedMore(cfg: Config, s: State, less: seq<(nat, Action)>, schedule: seq<(nat, Action)>, i: nat)
    requires less <= schedule && TriedAt(cfg, s, less, i)
    ensures TriedAt(cfg, s, schedule, i)
  {
    hide Run, WordAt, SawWord;
    if SawUsed(cfg, s, less, i) {
      var p :| 0 <= p <= |less| && StateOf(WordAt(Run(cfg, s, less[..p]), i)) != EMPTY;
      assert less[..p] == schedule[..p];
    } else {
      var v: nat, w: nat :| SawWord(cfg, s, less, i, v) && SawWord(cfg, s, less, i, w) && Head(v) != Head(w);
      WordMore(cfg, s, less, schedule, i, v);
      WordMore(cfg, s, less, schedule, i, w);
    }
  }

  lemma AllMore(cfg: Config, s: State, less: seq<(nat, Action)>, schedule: seq<(nat, Action)>, k: Key, tries: nat)
    requires less <= schedule && AllTried(cfg, s, less, k, tries)
    ensures AllTried(cfg, s, schedule, k, tries)
  {
    hide TriedAt, Bucket, Near;
    forall i: nat | Near(cfg, k, tries, i)
      ensures TriedAt(cfg, s, schedule, i)
    {
      TriedMore(cfg, s, less, schedule, i);
    }
  }

  lemma AllocMore(cfg: Config, s: State, less: seq<(nat, Action)>, schedule: seq<(nat, Action)>, l: Local)
    requires less <= schedule && AllocSoFar(cfg, s, less, l)
    ensures AllocSoFar(cfg, s, schedule, l)
  {
    hide AllTried, SawWord;
    match l {
      case Alloc(k, _, _, tries) => AllMore(cfg, s, less, schedule, k, tries);
      case AllocCas(k, _, _, tries, i, seen) =>
        AllMore(cfg, s, less, schedule, k, tries);
        WordMore(cfg, s, less, schedule, i, seen);
      case Done(k, r) => if r.BadAlloc? { AllMore(cfg, s, less, schedule, k, NEAR_TRIES); }
      case _ =>
    }
  }

  /** What a step of the thread itself can do to its allocation. */
  ghost predicate AllocMoves(cfg: Config, m: State, l: Local, l': Local)
    requires cfg.n > 0
  {
    || l' == l
    || (match l'
        case Alloc(k, _, _, tries) =>
          || tries == 0
          || (l.Alloc? && l.key == k && l.tries + 1 == tries
              && exists cand: nat :: Refused(cfg, m, Attempt(cfg, Bucket(cfg, k), l.tries, cand)))
          || (l.AllocCas? && l.key == k && l.tries + 1 == tries && (l.cand < cfg.n ==> WordAt(m, l.cand) != l.seen))
        case AllocCas(k, _, _, tries, i, seen) =>
          && l.Alloc? && l.key == k && l.tries == tries && i < cfg.n && WordAt(m, i) == seen && StateOf(seen) == EMPTY
          && exists cand: nat :: i == Attempt(cfg, Bucket(cfg, k), tries, cand)
        case Done(k, r) => r.BadAlloc? ==> l.Alloc? && l.key == k && l.tries >= MAX_TRIES
        case _ => true)
  }

  predicate Refused(cfg: Config, m: State, i: nat) { i < cfg.n && StateOf(WordAt(m, i)) != EMPTY }

  lemma AllocGoes(cfg: Config, m: State, t: nat, a: Action)
    requires Inv(cfg, m) && t < |m.threads| && cfg.n > 0
    ensures t < |Exec(cfg, m, t, a).threads| && AllocMoves(cfg, m, m.threads[t], Exec(cfg, m, t, a).threads[t])
  {
    InvParts(cfg, m, t);
    hide Inv, Bucket, LinkMem, ThreadOk, StateOf, Attempt;
    var l := m.threads[t];
    if a.Go? && l.Alloc? && l.tries < MAX_TRIES {
      var i := Attempt(cfg, Bucket(cfg, l.key), l.tries, a.cand);
      assert i < cfg.n && StateOf(m.mem.words[i]) != EMPTY ==> Refused(cfg, m, i);
    }
  }

  lemma AllocOwnStep(cfg: Config, s: State, less: seq<(nat, Action)>, schedule: seq<(nat, Action)>, t: nat, a: Action)
    requires schedule == less + [(t, a)] && Inv(cfg, Run(cfg, s, less)) && t < |Run(cfg, s, less).threads| && cfg.n > 0
    requires AllocSoFar(cfg, s, less, Run(cfg, s, less).threads[t])
    ensures t < |Run(cfg, s, schedule).threads| && AllocSoFar(cfg, s, schedule, Run(cfg, s, schedule).threads[t])
  {
    var m, m' := Run(cfg, s, less), Run(cfg, s, schedule);
    LastStates(cfg, s, less, schedule, t, a);
    AllocGoes(cfg, m, t, a);
    var l, l' := m.threads[t], m'.threads[t];
    AllocMore(cfg, s, less, schedule, l);
    hide *;
    if l' != l {
      if l'.Alloc? && l'.tries > 0 {
        OneMoreTry(cfg, s, less, schedule, l, l');
      } else {
        OtherMove(cfg, s, less, schedule, l, l');
      }
    }
  }

  lemma OtherMove(cfg: Config, s: State, less: seq<(nat, Action)>, schedule: seq<(nat, Action)>, l: Local, l': Local)
    requires less < schedule && cfg.n > 0 && AllocSoFar(cfg, s, schedule, l) && (l'.Alloc? ==> l'.tries == 0) && l' != l
    requires schedule[..|less|] == less && AllocMoves(cfg, Run(cfg, s, less), l, l')
    ensures AllocSoFar(cfg, s, schedule, l')
  {
    hide Run, Bucket, TriedAt, WordAt;
    if l'.AllocCas? {
      assert WordAt(Run(cfg, s, schedule[..|less|]), l'.cand) == l'.seen;
      assert SawWord(cfg, s, schedule, l'.cand, l'.seen);
    }
  }

  lemma OneMoreTry(cfg: Config, s: State, less: seq<(nat, Action)>, schedule: seq<(nat, Action)>, l: Local, l': Local)
    requires less < schedule && cfg.n > 0 && AllocSoFar(cfg, s, schedule, l) && l'.Alloc? && l'.tries > 0 && l' != l
    requires schedule[..|less|] == less && AllocMoves(cfg, Run(cfg, s, less), l, l')
    ensures AllocSoFar(cfg, s, schedule, l')
  {
    hide Run, Bucket;
    var m, b := Run(cfg, s, less), Bucket(cfg, l.key);
    if l.tries < NEAR_TRIES && b + l.tries < cfg.n {
      var i := b + l.tries;
      if l.Alloc? || StateOf(WordAt(m, i)) != EMPTY {
        assert StateOf(WordAt(Run(cfg, s, schedule[..|less|]), i)) != EMPTY;
        assert SawUsed(cfg, s, schedule, i);
      } else {
        var now := WordAt(m, i);
        assert WordAt(Run(cfg, s, schedule[..|less|]), i) == now;
        assert SawWord(cfg, s, schedule, i, now) && SawWord(cfg, s, schedule, i, l.seen);
        assert Head(now) != Head(l.seen);
        assert HeadMoved(cfg, s, schedule, i);
      }
      assert TriedAt(cfg, s, schedule, i);
    }
  }

  lemma {:induction false} AllocCall(cfg: Config, s: State, t: nat, start: Action, schedule: seq<(nat, Action)>)
    requires Inv(cfg, s) && cfg.n > 0 && t < |s.threads| && (s.threads[t].Idle? || s.threads[t].Done?)
    requires IsCall(schedule, t, start)
    ensures t < |Run(cfg, s, schedule).threads| && AllocSoFar(cfg, s, schedule, Run(cfg, s, schedule).threads[t])
    decreases |schedule|
  {
    var n := |schedule| - 1;
    var less, last := schedule[..n], schedule[n];
    assert schedule == less + [last];
    hide Inv;
    RunInv(cfg, s, less);
    LastStates(cfg, s, less, schedule, last.0, last.1);
    InvParts(cfg, s, t);
    if n == 0 {
      hide ExecGo, ExecThrow, ThreadOk, AllTried, SawWord;
      assert Run(cfg, s, less) == s;
    } else {
      hide Exec, AllocSoFar, ThreadOk, Run;
      AllocCall(cfg, s, t, start, less);
      if last.0 == t {
        AllocOwnStep(cfg, s, less, schedule, t, last.1);
      } else {
        OtherThread(cfg, Run(cfg, s, less), t, last.0, last.1);
        AllocMore(cfg, s, less, schedule, Run(cfg, s, less).threads[t]);
      }
    }
  }

  /** Every answer was right at an instant of its call: a find tells whether the map held
      the key when it loaded the bucket's head; a findOrConstruct that says it inserted
      the key linked it with its value, when the map did not hold it; one that says it did not knows
      where the key is; one that failed saw the map without the key; and one that found no
      slot saw each of the slots near its bucket in use, or lost it as a key was linked into
      the list that the slot is the bucket of. Only a call that says so changed whether the
      map holds the key. */
  lemma {:induction false} AnswerIsJustified(cfg: Config, s: State, t: nat, start: Action, schedule: seq<(nat, Action)>)
    requires Inv(cfg, s) && Values(s) && t < |s.threads| && (s.threads[t].Idle? || s.threads[t].Done?)
    requires IsCall(schedule, t, start)
    ensures var s' := Run(cfg, s, schedule);
      && t < |s'.threads|
      && (s'.threads[t].Done? ==>
            s'.threads[t].key == start.k && Justified(cfg, s, schedule, t, start, s'.threads[t].result))
  {
    CallSoFar(cfg, s, t, start, schedule);
    InvParts(cfg, s, t);
    AllocCall(cfg, s, t, start, schedule);
    CallArg(cfg, s, t, start, schedule);
    QuietCall(cfg, s, t, start, schedule);
    var s' := Run(cfg, s, schedule);
    hide Inv, Run, SawMember, Added, Bucket, AllTried, ChangedNothing;
    if s'.threads[t].Done? {
      AnswerHolds(cfg, s', t);
    }
    hide HasPair, Has, Values;
  }

  /** What an answer says about the map as it is. */
  lemma AnswerHolds(cfg: Config, s: State, t: nat)
    requires Inv(cfg, s) && Values(s) && t < |s.threads| && s.threads[t].Done?
    ensures var k := s.threads[t].key;
      match s.threads[t].result
      case Found(node, was) => (was <==> node != 0) && (was ==> Has(s.mem, k, node))
      case Existing(node) => Has(s.mem, k, node)
      case New(node) => HasPair(s.mem, k, s.args[t], node)
      case _ => true
  {
    InvParts(cfg, s, t);
    assert ValueAt(s, t);
  }

  // ----- What makes an insert try again -----

  /** How often the word of slot `b` changed in a run. */
  function Changes(cfg: Config, s: State, schedule: seq<(nat, Action)>, b: nat): nat {
    if |schedule| == 0 then 0
    else
      var less := schedule[..|schedule| - 1];
      var changed := WordAt(Run(cfg, s, less), b) != WordAt(Run(cfg, s, schedule), b);
      Changes(cfg, s, less, b) + (if changed then 1 else 0)
  }

  lemma {:induction false} ChangesAppend(cfg: Config, s: State, x: seq<(nat, Action)>, y: seq<(nat, Action)>, b: nat)
    ensures Changes(cfg, s, x + y, b) == Changes(cfg, s, x, b) + Changes(cfg, Run(cfg, s, x), y, b)
    decreases |y|
  {
    hide Exec, WordAt;
    if |y| == 0 {
      assert x + y == x;
    } else {
      ChangesAppend(cfg, s, x, y[..|y| - 1], b);
      RunAppend(cfg, s, x, y[..|y| - 1]);
      RunAppend(cfg, s, x, y);
      assert (x + y)[..|x + y| - 1] == x + y[..|y| - 1];
    }
  }

  lemma {:induction false} UnchangedWord(cfg: Config, s: State, y: seq<(nat, Action)>, b: nat)
    requires Changes(cfg, s, y, b) == 0
    ensures WordAt(Run(cfg, s, y), b) == WordAt(s, b)
    decreases |y|
  {
    hide Exec, WordAt;
    if |y| > 0 {
      UnchangedWord(cfg, s, y[..|y| - 1], b);
    }
  }

  /** Between two moments with different words there was a change; there are never fewer
      changes later. */
  lemma ChangedSince(cfg: Config, s: State, x: seq<(nat, Action)>, y: seq<(nat, Action)>, b: nat)
    requires x <= y
    ensures Changes(cfg, s, x, b) <= Changes(cfg, s, y, b)
    ensures WordAt(Run(cfg, s, x), b) != WordAt(Run(cfg, s, y), b) ==> Changes(cfg, s, x, b) < Changes(cfg, s, y, b)
  {
    hide Exec, WordAt, Run, Changes;
    var z := y[|x|..];
    assert y == x + z;
    ChangesAppend(cfg, s, x, z, b);
    RunAppend(cfg, s, x, z);
    if Changes(cfg, Run(cfg, s, x), z, b) == 0 {
      UnchangedWord(cfg, Run(cfg, s, x), z, b);
    }
  }

  // ----- Where values come from -----

  /** Thread `u` is in an insert of `k` and `v`. */
  predicate Inserting(s: State, u: nat, k: Key, v: Value) {
    && u < |s.threads| && u < |s.args| && s.args[u] == v
    && match s.threads[u]
       case Idle => false
       case Done(_, _) => false
       case FindHead(q, call) => !call.Lookup? && q == k
       case Walk(q, call, _, _, _, _) => !call.Lookup? && q == k
       case l => l.key == k
  }

  /** Thread `u` began its insert of `k` and `v` with step `m` and is in it from there to state
      `p`. */
  ghost predicate Began(cfg: Config, s: State, schedule: seq<(nat, Action)>, u: nat, k: Key, v: Value, m: nat, p: nat) {
    && m < p <= |schedule| && schedule[m] == (u, StartInsert(k, v))
    && forall i :: m < i <= p ==> Inserting(Run(cfg, s, schedule[..i]), u, k, v)
  }

  /** Step `p`, in the call that `u` began with step `m`, linked `k` at `node` with value `v` when
      the map did not hold it, and there it is ever since. */
  ghost predicate GivenBy(cfg: Config, s: State, schedule: seq<(nat, Action)>, k: Key, v: Value, node: nat,
                          u: nat, m: nat, p: nat) {
    && Began(cfg, s, schedule, u, k, v, m, p) && p < |schedule| && schedule[p].0 == u
    && k !in Run(cfg, s, schedule[..p]).mem.nodeOf
    && forall i :: p < i <= |schedule| ==> HasPair(Run(cfg, s, schedule[..i]).mem, k, v, node)
  }

  ghost predicate WasStarted(cfg: Config, s: State, schedule: seq<(nat, Action)>, u: nat, k: Key, v: Value) {
    exists m: nat :: Began(cfg, s, schedule, u, k, v, m, |schedule|)
  }

  ghost predicate WasGiven(cfg: Config, s: State, schedule: seq<(nat, Action)>, k: Key, v: Value, node: nat) {
    exists u: nat, m: nat, p: nat :: GivenBy(cfg, s, schedule, k, v, node, u, m, p)
  }

  lemma StartedMore(cfg: Config, s: State, less: seq<(nat, Action)>, schedule: seq<(nat, Action)>, u: nat, k: Key,
                    v: Value)
    requires less < schedule && |schedule| == |less| + 1
    requires WasStarted(cfg, s, less, u, k, v) && Inserting(Run(cfg, s, schedule), u, k, v)
    ensures WasStarted(cfg, s, schedule, u, k, v)
  {
    hide Run, Inserting;
    var m: nat :| Began(cfg, s, less, u, k, v, m, |less|);
    forall i | m < i <= |schedule|
      ensures Inserting(Run(cfg, s, schedule[..i]), u, k, v)
    {
      if i <= |less| {
        assert less[..i] == schedule[..i];
      } else {
        assert schedule[..i] == schedule;
      }
    }
    assert Began(cfg, s, schedule, u, k, v, m, |schedule|);
  }

  lemma StartsNow(cfg: Config, s: State, less: seq<(nat, Action)>, schedule: seq<(nat, Action)>, u: nat, k: Key,
                  v: Value)
    requires schedule == less + [(u, StartInsert(k, v))] && Inserting(Run(cfg, s, schedule), u, k, v)
    ensures WasStarted(cfg, s, schedule, u, k, v)
  {
    hide Run, Inserting;
    assert schedule[..|schedule|] == schedule;
    assert Began(cfg, s, schedule, u, k, v, |less|, |schedule|);
  }

  /** A thread is in an insert of `k` and `v` when it was before, or begins just that. */
  lemma SameInsert(cfg: Config, m: State, u: nat, t: nat, a: Action, k: Key, v: Value)
    requires Inv(cfg, m) && Values(m) && Inserting(Exec(cfg, m, t, a), u, k, v)
    ensures Inserting(m, u, k, v) || (t == u && a == StartInsert(k, v))
  {
    if t < |m.threads| {
      InvParts(cfg, m, t);
    }
    hide Inv, Bucket, LinkMem, ThreadOk, Values;
  }

  lemma {:induction false} InsertWasStarted(cfg: Config, n: nat, schedule: seq<(nat, Action)>, u: nat, k: Key, v: Value)
    requires cfg.n > 0 && Inserting(Run(cfg, Initial(cfg, n), schedule), u, k, v)
    ensures WasStarted(cfg, Initial(cfg, n), schedule, u, k, v)
    decreases |schedule|
  {
    if |schedule| > 0 {
      hide Inv, Exec, WasStarted, Inserting, Values;
      var s0 := Initial(cfg, n);
      var less, last := schedule[..|schedule| - 1], schedule[|schedule| - 1];
      assert schedule == less + [last];
      var m := Run(cfg, s0, less);
      InitialInv(cfg, n);
      InitialValues(cfg, n);
      ValuesRun(cfg, s0, less);
      LastStates(cfg, s0, less, schedule, last.0, last.1);
      SameInsert(cfg, m, u, last.0, last.1, k, v);
      if Inserting(m, u, k, v) {
        InsertWasStarted(cfg, n, less, u, k, v);
        StartedMore(cfg, s0, less, schedule, u, k, v);
      } else {
        StartsNow(cfg, s0, less, schedule, u, k, v);
      }
    }
  }

  lemma GivenMore(cfg: Config, s: State, less: seq<(nat, Action)>, schedule: seq<(nat, Action)>, k: Key, v: Value,
                  node: nat)
    requires less < schedule && |schedule| == |less| + 1
    requires WasGiven(cfg, s, less, k, v, node) && HasPair(Run(cfg, s, schedule).mem, k, v, node)
    ensures WasGiven(cfg, s, schedule, k, v, node)
  {
    hide Run, Inserting, HasPair;
    var u: nat, m: nat, p: nat :| GivenBy(cfg, s, less, k, v, node, u, m, p);
    forall i | m < i <= p
      ensures Inserting(Run(cfg, s, schedule[..i]), u, k, v)
    {
      assert less[..i] == schedule[..i];
    }
    forall i | p < i <= |schedule|
      ensures HasPair(Run(cfg, s, schedule[..i]).mem, k, v, node)
    {
      if i <= |less| {
        assert less[..i] == schedule[..i];
      } else {
        assert schedule[..i] == schedule;
      }
    }
    assert less[..p] == schedule[..p];
    assert GivenBy(cfg, s, schedule, k, v, node, u, m, p);
  }

  lemma GivenNow(cfg: Config, s: State, less: seq<(nat, Action)>, schedule: seq<(nat, Action)>, k: Key, v: Value,
                 node: nat, u: nat, a: Action)
    requires schedule == less + [(u, a)] && WasStarted(cfg, s, less, u, k, v)
    requires k !in Run(cfg, s, less).mem.nodeOf && HasPair(Run(cfg, s, schedule).mem, k, v, node)
    ensures WasGiven(cfg, s, schedule, k, v, node)
  {
    hide Run, Inserting, HasPair;
    var m: nat :| Began(cfg, s, less, u, k, v, m, |less|);
    assert schedule[..|less|] == less && schedule[..|schedule|] == schedule;
    forall i | m < i <= |less|
      ensures Inserting(Run(cfg, s, schedule[..i]), u, k, v)
    {
      assert less[..i] == schedule[..i];
    }
    assert GivenBy(cfg, s, schedule, k, v, node, u, m, |less|);
  }

  /** A key of the map stays where it is, with its value; a new one comes from a thread that
      inserts it, with that thread's value. */
  lemma PairStep(cfg: Config, m: State, t: nat, a: Action, k: Key)
    requires Inv(cfg, m) && Values(m) && k in Exec(cfg, m, t, a).mem.nodeOf
    ensures var mem' := Exec(cfg, m, t, a).mem;
      && mem'.nodeOf[k] < |mem'.vals|
      && (if k in m.mem.nodeOf then HasPair(m.mem, k, mem'.vals[mem'.nodeOf[k]], mem'.nodeOf[k])
          else Inserting(m, t, k, mem'.vals[mem'.nodeOf[k]]))
  {
    var m' := Exec(cfg, m, t, a);
    var e := StepShows(cfg, m, t, a);
    if k in m.mem.nodeOf {
      InvBucket(cfg, m, k);
      var node := m.mem.nodeOf[k];
      if t < |m.threads| {
        InvParts(cfg, m, t);
      }
      hide Exec, Inv, Bucket;
      PairKept(cfg, m, t, a, node);
    } else {
      NewIsLinked(cfg, m, t, a, e, k);
      hide Exec, Inv;
    }
  }

  lemma NewIsLinked(cfg: Config, m: State, t: nat, a: Action, e: Effect, k: Key)
    requires Inv(cfg, m) && Values(m) && Shows(m, Exec(cfg, m, t, a), t, e)
    requires k !in m.mem.nodeOf && k in Exec(cfg, m, t, a).mem.nodeOf
    ensures t < |m.threads| && m.threads[t].Link? && m.threads[t].key == k && t < |m.args|
    ensures HasPair(Exec(cfg, m, t, a).mem, k, m.args[t], m.threads[t].idx)
  {
    var l := m.threads[t];
    if a.Go? {
      LinkGoes(cfg, m, t, a);
    } else {
      OnlyGoLinks(cfg, m, t, a);
    }
    hide Exec, Inv;
  }

  lemma OnlyGoLinks(cfg: Config, m: State, t: nat, a: Action)
    requires !a.Go?
    ensures Exec(cfg, m, t, a).mem.nodeOf == m.mem.nodeOf
  {
  }

  /** In every run, the value at a key's node is the one that was given with it: some thread began
      an insert of just that key and value, linked them at the node when the map did not hold the
      key, and there they are ever since. As every answer that names a node names the key's
      (`AnswerIsJustified`), it leads to the value of the one insert that won. */
  lemma {:induction false} ValueWasGiven(cfg: Config, n: nat, schedule: seq<(nat, Action)>, k: Key)
    requires cfg.n > 0
    ensures var m := Run(cfg, Initial(cfg, n), schedule).mem;
      k in m.nodeOf ==>
        m.nodeOf[k] < |m.vals| && WasGiven(cfg, Initial(cfg, n), schedule, k, m.vals[m.nodeOf[k]], m.nodeOf[k])
    decreases |schedule|
  {
    var s0 := Initial(cfg, n);
    if |schedule| > 0 {
      hide Inv, Exec, WasGiven, WasStarted, Values, Inserting;
      var less, last := schedule[..|schedule| - 1], schedule[|schedule| - 1];
      assert schedule == less + [last];
      InitialInv(cfg, n);
      InitialValues(cfg, n);
      ValuesRun(cfg, s0, less);
      var m, m' := Run(cfg, s0, less), Run(cfg, s0, schedule);
      LastStates(cfg, s0, less, schedule, last.0, last.1);
      if k in m'.mem.nodeOf {
        PairStep(cfg, m, last.0, last.1, k);
        var node := m'.mem.nodeOf[k];
        var v := m'.mem.vals[node];
        if k in m.mem.nodeOf {
          ValueWasGiven(cfg, n, less, k);
          GivenMore(cfg, s0, less, schedule, k, v, node);
        } else {
          InsertWasStarted(cfg, n, less, last.0, k, v);
          GivenNow(cfg, s0, less, schedule, k, v, node, last.0, last.1);
        }
      }
    }
  }
}
