/** find, allocateNear and findOrConstruct of libs/folly/folly/AtomicUnorderedMap.h:267-312,
    426-470 as written, on slots that are read and written in place, with the other
    threads running between any two accesses. Each is one call in a run of module
    UnorderedMap from the state it was called in. */
module UnorderedMapProgram {
  import opened Common
  import opened UnorderedMap
  import opened UnorderedMapCalls

  ghost predicate NotOf(schedule: seq<(nat, Action)>, t: nat) {
    forall i :: 0 <= i < |schedule| ==> schedule[i].0 != t
  }

  /** `s'` is where other threads than `t` can bring `s`. */
  ghost predicate OthersRan(cfg: Config, s: State, s': State, t: nat) {
    exists schedule :: NotOf(schedule, t) && s' == Run(cfg, s, schedule)
  }

  lemma {:induction false} OthersKeep(cfg: Config, s: State, schedule: seq<(nat, Action)>, t: nat)
    requires t < |s.threads| && NotOf(schedule, t)
    ensures var s' := Run(cfg, s, schedule);
      |s'.threads| == |s.threads| && s'.threads[t] == s.threads[t] && ArgOf(s', t) == ArgOf(s, t)
  {
    if |schedule| > 0 {
      hide Exec;
      var less, last := schedule[..|schedule| - 1], schedule[|schedule| - 1];
      OthersKeep(cfg, s, less, t);
      OtherThread(cfg, Run(cfg, s, less), t, last.0, last.1);
      OtherArg(cfg, Run(cfg, s, less), t, last.0, last.1);
    }
  }

  lemma OtherArg(cfg: Config, s: State, t: nat, u: nat, a: Action)
    requires u != t
    ensures ArgOf(Exec(cfg, s, u, a), t) == ArgOf(s, t)
  {
    hide Bucket, WalkStep, LinkMem;
  }

  datatype Slot = Slot(word: nat, next: nat, key: Key, value: Value)

  /** The slots are those of the state machine. */
  predicate Stored(slots: seq<Slot>, m: Mem) {
    && |slots| == |m.words| == |m.next| == |m.keys| == |m.vals|
    && forall i :: 0 <= i < |slots| ==> slots[i] == Slot(m.words[i], m.next[i], m.keys[i], m.vals[i])
  }

  class InsertMap {
    const cfg: Config
    var slots: array<Slot>
    ghost var st: State
    /** Every step since the map was made, and what that was when the call at hand had
        taken its first. */
    ghost var log: seq<(nat, Action)>
    ghost var begun: seq<(nat, Action)>
    ghost const threadCount: nat
    /** What the func of the call at hand constructs. */
    ghost var arg: Value

    ghost predicate Traced()
      reads this
    {
      cfg.n > 0 && Inv(cfg, st) && Values(st) && st == Run(cfg, Initial(cfg, threadCount), log)
    }

    ghost predicate Valid()
      reads this, slots
    {
      Traced() && slots.Length == cfg.n && Stored(slots[..], st.mem)
    }

    /** The theorems about all runs apply to the map as it is. */
    lemma IsReachable()
      requires Valid()
      ensures Reachable(cfg, st)
    {
    }

    /** Thread `t` began its call with the last step of `begun` and has only gone on
        since. */
    ghost predicate Going(t: nat)
      reads this
    {
      && t < |st.threads| && |begun| > 0 && begun <= log && begun[|begun| - 1].0 == t && ArgOf(st, t) == arg
      && forall i :: |begun| <= i < |log| && log[i].0 == t ==> !IsStart(log[i].1)
    }

    /** How often the word of slot `b` has changed. */
    ghost function Changed(b: nat): nat
      reads this
      requires cfg.n > 0
    {
      Changes(cfg, Initial(cfg, threadCount), log, b)
    }

    /** The word of slot `b` when the log was `at`. */
    ghost predicate Was(at: seq<(nat, Action)>, b: nat, word: nat)
      reads this
    {
      cfg.n > 0 && at <= log && WordAt(Run(cfg, Initial(cfg, threadCount), at), b) == word
    }

    /** Thread `t` is at `l` of its call. */
    ghost predicate In(t: nat, l: Local)
      reads this
    {
      t < |st.threads| && Going(t) && st.threads[t] == l
    }

    constructor (cfg: Config, threadCount: nat)
      requires cfg.n > 0
      ensures Valid() && this.cfg == cfg && st == Initial(cfg, threadCount) && log == []
    {
      this.cfg := cfg;
      this.threadCount := threadCount;
      slots := new Slot[cfg.n](_ => Slot(0, 0, 0, 0));
      log, begun, arg := [], [], 0;
      st := Initial(cfg, threadCount);
      new;
      slots[0] := slots[0].(word := slots[0].word + CONSTRUCTING - EMPTY);
      InitialInv(cfg, threadCount);
      InitialValues(cfg, threadCount);
    }

    /** The other threads run for a while. The last clause follows (`OthersKeep`). */
    method Others(t: nat)
      requires Valid() && t < |st.threads|
      modifies this`st, this`log, slots
      ensures Valid() && OthersRan(cfg, old(st), st, t)
      ensures old(log) <= log && NotOf(log[|old(log)|..], t)
      ensures |st.threads| == |old(st).threads| && st.threads[t] == old(st).threads[t]
      ensures ArgOf(st, t) == ArgOf(old(st), t)
    {
      assert NotOf([], t) && st == Run(cfg, st, []);
      OthersKeep(cfg, st, [], t);
    }

    ghost method Tick(t: nat, a: Action)
      requires Traced() && t < |st.threads|
      modifies this`st, this`log
      ensures Traced() && st == Exec(cfg, old(st), t, a) && log == old(log) + [(t, a)]
      ensures Sized(cfg, old(st).mem) && Sized(cfg, st.mem)
    {
      hide Inv, Exec, Values;
      InvParts(cfg, st, t);
      ExecInv(cfg, st, t, a);
      ValuesStep(cfg, st, t, a);
      OneStep(cfg, st, t, a);
      st := Exec(cfg, st, t, a);
      log := log + [(t, a)];
      assert log[..|log| - 1] == old(log);
    }

    /** The first step of a call. */
    ghost method Begin(t: nat, start: Action)
      requires Valid() && t < |st.threads| && (st.threads[t].Idle? || st.threads[t].Done?) && IsStart(start)
      modifies this`st, this`log, this`begun, this`arg
      ensures Valid() && In(t, if start.StartFind? then FindHead(start.k, Lookup) else LoadPrev(start.k))
      ensures begun == log == old(log) + [(t, start)] && (start.StartInsert? ==> arg == start.v)
    {
      hide Inv, Run, ExecGo, ExecThrow;
      begun := log + [(t, start)];
      arg := if start.StartInsert? then start.v else ArgOf(st, t);
      Tick(t, start);
    }

    /** What the steps since `before` amount to, when `t` began a call there. */
    lemma CallsRan(s: State, before: seq<(nat, Action)>, t: nat, start: Action)
      requires Valid() && Going(t) && begun == before + [(t, start)] && IsStart(start)
      requires s == Run(cfg, Initial(cfg, threadCount), before) && Inv(cfg, s) && Values(s)
      requires t < |s.threads| && (s.threads[t].Idle? || s.threads[t].Done?)
      ensures t < |st.threads| && CallRan(cfg, s, st, t, start)
      ensures st.threads[t].Done? ==> CallGave(cfg, s, st, t, start, st.threads[t].result)
      ensures before <= log && st == Run(cfg, s, log[|before|..])
      ensures forall b: nat ::
        Changed(b) == Changes(cfg, Initial(cfg, threadCount), before, b) + Changes(cfg, s, log[|before|..], b)
    {
      hide Inv, Run, Justified, Changes;
      var schedule := log[|before|..];
      assert log == before + schedule;
      forall b: nat
        ensures Changed(b) == Changes(cfg, Initial(cfg, threadCount), before, b) + Changes(cfg, s, schedule, b)
      {
        ChangesAppend(cfg, Initial(cfg, threadCount), before, schedule, b);
      }
      RunAppend(cfg, Initial(cfg, threadCount), before, schedule);
      assert IsCall(schedule, t, start);
      AnswerIsJustified(cfg, s, t, start, schedule);
    }

    // ----- find -----

    method LoadHead(t: nat, k: Key, ghost call: Call, slot: nat) returns (node: nat)
      requires Valid() && In(t, FindHead(k, call)) && slot == Bucket(cfg, k)
      modifies this`st, this`log, slots
      ensures Valid() && Going(t) && t < |st.threads| && Walking(st.threads[t], k, call, node) && node < cfg.n
      ensures old(log) <= log
    {
      hide Run, Inv, Bucket, WalkStep, LinkMem, Values;
      Others(t);
      InBucket(cfg, st, slot);
      node := slots[slot].word / 4;
      Tick(t, Go(0));
    }

    /** One turn of the loop at a node: its key, or on to the next. */
    method VisitNode(t: nat, k: Key, ghost call: Call, at: nat) returns (found: bool, node: nat)
      requires Valid() && Going(t) && t < |st.threads| && Walking(st.threads[t], k, call, at) && 0 < at < cfg.n
      modifies this`st, this`log, slots
      ensures Valid() && Going(t) && t < |st.threads|
      ensures found ==> node == at && AfterFind(st.threads[t], k, call, at)
      ensures !found ==>
        Walking(st.threads[t], k, call, node) && node < cfg.n && st.threads[t].pos < old(st).threads[t].pos
      ensures old(log) <= log
    {
      hide Run, Inv, Bucket, LinkMem, Values;
      Others(t);
      AtNode(cfg, st, t);
      found := slots[at].key == k;
      node := if found then at else slots[at].next;
      Tick(t, Go(0));
    }

    method EndWalk(t: nat, k: Key, ghost call: Call)
      requires Valid() && Going(t) && t < |st.threads| && Walking(st.threads[t], k, call, 0)
      modifies this`st, this`log, slots
      ensures Valid() && Going(t) && t < |st.threads| && AfterFind(st.threads[t], k, call, 0)
      ensures old(log) <= log
    {
      hide Run, Inv, Bucket, LinkMem, Values;
      Others(t);
      Tick(t, Go(0));
    }

    /** find: the slot of the key in its bucket's chain, or 0. */
    method FindNode(t: nat, k: Key, ghost call: Call, slot: nat) returns (node: nat)
      requires Valid() && In(t, FindHead(k, call)) && slot == Bucket(cfg, k)
      modifies this`st, this`log, slots
      ensures Valid() && Going(t) && t < |st.threads| && AfterFind(st.threads[t], k, call, node)
      ensures old(log) <= log
    {
      hide Run, Inv, Bucket, Exec, Changes, Values, Stored, InsertMap.Going;
      node := LoadHead(t, k, call, slot);
      while node != 0
        invariant Valid() && Going(t) && t < |st.threads| && Walking(st.threads[t], k, call, node) && node < cfg.n
        invariant old(log) <= log
        decreases st.threads[t].pos
      {
        var found;
        found, node := VisitNode(t, k, call, node);
        if found {
          return;
        }
      }
      EndWalk(t, k, call);
    }

    /** The lookup of a key, one call of the state machine run from the state it was called
        in: it tells whether the map held the key at an instant of the call, and if so
        where it is. */
    method Find(t: nat, k: Key) returns (node: nat)
      requires Valid() && t < |st.threads| && (st.threads[t].Idle? || st.threads[t].Done?)
      modifies this`st, this`log, this`begun, this`arg, slots
      ensures Valid() && CallRan(cfg, old(st), st, t, StartFind(k)) && In(t, Done(k, Found(node, node != 0)))
      ensures CallGave(cfg, old(st), st, t, StartFind(k), Found(node, node != 0))
      ensures node != 0 ==> Has(st.mem, k, node)
    {
      hide Run, Inv, Bucket, Exec, Changes, Values, Stored, InsertMap.Going;
      Begin(t, StartFind(k));
      var slot := KeyToSlotIdx(cfg, k);
      node := FindNode(t, k, Lookup, slot);
      Answered(cfg, st, t);
      CallsRan(old(st), old(log), t, StartFind(k));
    }

    // ----- allocateNear -----

    method LoadCandidate(t: nat, k: Key, prev: nat, ghost plen: nat, tries: nat, slot: nat) returns (seen: nat)
      requires Valid() && In(t, Alloc(k, prev, plen, tries)) && tries < MAX_TRIES
      requires slot == Attempt(cfg, Bucket(cfg, k), tries, slot) < cfg.n
      modifies this`st, this`log, slots
      ensures Valid() && old(log) <= log
      ensures In(t, if seen % 4 == EMPTY then AllocCas(k, prev, plen, tries, slot, seen)
                    else Alloc(k, prev, plen, tries + 1))
    {
      hide Run, Inv, Bucket, WalkStep, LinkMem, Values;
      Others(t);
      seen := slots[slot].word;
      Tick(t, Go(slot));
    }

    method CasConstructing(t: nat, k: Key, prev: nat, ghost plen: nat, tries: nat, slot: nat, seen: nat)
      returns (ok: bool)
      requires Valid() && In(t, AllocCas(k, prev, plen, tries, slot, seen)) && slot < cfg.n
      modifies this`st, this`log, slots
      ensures Valid() && old(log) <= log
      ensures In(t, if ok then Construct(k, prev, plen, slot) else Alloc(k, prev, plen, tries + 1))
    {
      hide Run, Inv, Bucket, WalkStep, LinkMem, Values;
      Others(t);
      ok := slots[slot].word == seen;
      if ok {
        slots[slot] := slots[slot].(word := seen + CONSTRUCTING - EMPTY);
      }
      Tick(t, Go(0));
    }

    /** allocationAttempt: near the start first, then anywhere. */
    method AllocationAttempt(start: nat, tries: nat) returns (slot: nat)
      requires Valid()
      ensures slot < cfg.n && (tries < NEAR_TRIES && start + tries < cfg.n ==> slot == start + tries)
    {
      if tries < NEAR_TRIES && start + tries < cfg.n {
        return start + tries;
      }
      var random: int := *;
      return if 0 <= random < cfg.n then random else 0;
    }

    /** allocateNear, as steps of findOrConstruct: a slot that was empty and is now this
        thread's; None is bad_alloc after the last try. */
    method AllocateNear(t: nat, k: Key, prev: nat, ghost plen: nat, start: nat) returns (idx: Option<nat>)
      requires Valid() && In(t, Alloc(k, prev, plen, 0)) && start == Bucket(cfg, k)
      modifies this`st, this`log, slots
      ensures Valid() && old(log) <= log
      ensures In(t, if idx.Some? then Construct(k, prev, plen, idx.value) else Done(k, BadAlloc))
      ensures idx.Some? ==> 0 < idx.value < cfg.n && Sized(cfg, st.mem) && Own(cfg, st.mem, t, idx.value)
    {
      hide Run, Inv, Bucket, WalkStep, LinkMem, Values;
      var tries := 0;
      while tries < MAX_TRIES
        invariant 0 <= tries <= MAX_TRIES && Valid() && old(log) <= log && In(t, Alloc(k, prev, plen, tries))
      {
        var slot := AllocationAttempt(start, tries);
        var seen := LoadCandidate(t, k, prev, plen, tries, slot);
        if seen % 4 == EMPTY {
          var ok := CasConstructing(t, k, prev, plen, tries, slot, seen);
          if ok {
            OwnsSlot(cfg, st, t);
            return Some(slot);
          }
        }
        tries := tries + 1;
      }
      Tick(t, Go(0));
      return None;
    }

    // ----- findOrConstruct -----

    method LoadPrevWord(t: nat, k: Key, slot: nat) returns (prev: nat, ghost plen: nat, ghost at: seq<(nat, Action)>)
      requires Valid() && In(t, LoadPrev(k)) && slot == Bucket(cfg, k)
      modifies this`st, this`log, slots
      ensures Valid() && In(t, FindHead(k, First(prev, plen))) && old(log) <= at && Was(at, slot, prev)
    {
      hide Run, Inv, Bucket, WalkStep, LinkMem, Values;
      Others(t);
      InBucket(cfg, st, slot);
      prev, plen, at := slots[slot].word, |st.mem.chains[slot]|, log;
      Tick(t, Go(0));
    }

    /** The key and value are constructed in the slot, or func throws. */
    method ConstructPair(t: nat, k: Key, value: Value, prev: nat, ghost plen: nat, idx: nat, throws: bool)
      requires Valid() && In(t, Construct(k, prev, plen, idx)) && idx < cfg.n && value == arg
      modifies this`st, this`log, slots
      ensures Valid() && In(t, if throws then Done(k, Threw) else SetNext(k, prev, plen, idx))
      ensures old(log) <= log
    {
      hide Run, Inv, Bucket, WalkStep, LinkMem, Values;
      Others(t);
      slots[idx] := slots[idx].(key := k);
      if !throws {
        slots[idx] := slots[idx].(value := value);
      }
      Tick(t, if throws then Throw else Go(0));
    }

    method WriteNext(t: nat, k: Key, prev: nat, ghost plen: nat, idx: nat)
      requires Valid() && In(t, SetNext(k, prev, plen, idx)) && idx < cfg.n
      modifies this`st, this`log, slots
      ensures Valid() && In(t, Link(k, prev, plen, idx))
      ensures old(log) <= log
    {
      hide Run, Inv, Bucket, WalkStep, LinkMem, Values;
      Others(t);
      slots[idx] := slots[idx].(next := prev / 4);
      Tick(t, Go(0));
    }

    /** The compare-and-swap of the bucket's word; a failure loads it. */
    method CasHead(t: nat, k: Key, prev: nat, ghost plen: nat, idx: nat, slot: nat)
      returns (ok: bool, word: nat, ghost len: nat, ghost at: seq<(nat, Action)>)
      requires Valid() && In(t, Link(k, prev, plen, idx)) && idx < cfg.n && slot == Bucket(cfg, k)
      modifies this`st, this`log, slots
      ensures Valid() && Going(t)
      ensures ok ==> In(t, if slot == idx then Done(k, New(idx)) else StateUp(k, idx))
      ensures !ok ==> In(t, FindHead(k, Again(word, len, idx))) && word != prev
      ensures old(log) <= at && Was(at, slot, word)
    {
      hide Run, Inv, Bucket, WalkStep, Values;
      Others(t);
      var after := 4 * idx;
      if slot == idx {
        after := after + LINKED;
      } else {
        after := after + prev % 4;
      }
      InBucket(cfg, st, slot);
      word, len, at := slots[slot].word, |st.mem.chains[slot]|, log;
      ok := word == prev;
      if ok {
        slots[slot] := slots[slot].(word := after);
      }
      Tick(t, Go(0));
    }

    /** stateUpdate, to LINKED or back to EMPTY. */
    method StateUpdate(t: nat, l: Local, before: nat, after: nat)
      requires Valid() && In(t, l)
      requires (l.StateUp? && before == CONSTRUCTING && after == LINKED)
        || (l.Abort? && before == CONSTRUCTING && after == EMPTY)
      modifies this`st, this`log, slots
      ensures Valid() && In(t, Done(l.key, if l.StateUp? then New(l.idx) else Existing(l.existing)))
    {
      hide Run, Inv, Bucket, WalkStep, LinkMem, Values;
      Others(t);
      BeingBuilt(cfg, st, t);
      slots[l.idx] := slots[l.idx].(word := slots[l.idx].word + after - before);
      Tick(t, Go(0));
    }

    /** findOrConstruct, one call of the state machine run from the state it was called in;
        `spins` bounds the turns of the link loop, and None is a call that has not come to
        an end by then, as the word of the bucket changed more than that often. An answer
        says where the key is, New only if this call linked it, with its own value. `value` is
        what func constructs, and `throws` says whether it throws instead. */
    method FindOrConstruct(t: nat, k: Key, value: Value, throws: bool, spins: nat) returns (r: Option<Result>)
      requires Valid() && t < |st.threads| && (st.threads[t].Idle? || st.threads[t].Done?)
      modifies this`st, this`log, this`begun, this`arg, slots
      ensures Valid() && CallRan(cfg, old(st), st, t, StartInsert(k, value))
      ensures r.Some? ==> In(t, Done(k, r.value)) && CallGave(cfg, old(st), st, t, StartInsert(k, value), r.value)
      ensures r.Some? ==> !r.value.Found? && (r.value.New? || r.value.Existing? ==> Has(st.mem, k, r.value.node))
      ensures r.Some? && r.value.New? ==> HasPair(st.mem, k, value, r.value.node)
      ensures r == Some(Threw) ==> throws
      ensures old(log) <= log && st == Run(cfg, old(st), log[|old(log)|..])
      ensures r.None? ==> Changes(cfg, old(st), log[|old(log)|..], Bucket(cfg, k)) > spins
    {
      hide Run, Inv, Bucket, Exec, Changes, Values, Stored, InsertMap.Going;
      Begin(t, StartInsert(k, value));
      ChangedSince(cfg, Initial(cfg, threadCount), old(log), log, Bucket(cfg, k));
      r := InsertSteps(t, k, value, throws, spins);
      if r.Some? {
        AnswerHolds(cfg, st, t);
      }
      CallsRan(old(st), old(log), t, StartInsert(k, value));
    }

    method InsertSteps(t: nat, k: Key, value: Value, throws: bool, spins: nat) returns (r: Option<Result>)
      requires Valid() && In(t, LoadPrev(k)) && value == arg
      modifies this`st, this`log, slots
      ensures Valid() && Going(t) && (r.Some? ==> In(t, Done(k, r.value)) && !r.value.Found?)
      ensures r == Some(Threw) ==> throws
      ensures r.None? ==> Changed(Bucket(cfg, k)) > old(Changed(Bucket(cfg, k))) + spins
    {
      hide Run, Inv, Bucket, Exec, Changes, Values, Stored, InsertMap.Going;
      var slot := KeyToSlotIdx(cfg, k);
      var prev: nat;
      ghost var plen: nat;
      ghost var at: seq<(nat, Action)>;
      prev, plen, at := LoadPrevWord(t, k, slot);
      var existing := FindNode(t, k, First(prev, plen), slot);
      if existing != 0 {
        return Some(Existing(existing));
      }
      var taken := AllocateNear(t, k, prev, plen, slot);
      if taken.None? {
        return Some(BadAlloc);
      }
      ConstructPair(t, k, value, prev, plen, taken.value, throws);
      if throws {
        return Some(Threw);
      }
      r := LinkLoop(t, k, prev, plen, taken.value, slot, at, spins);
      ChangedSince(cfg, Initial(cfg, threadCount), old(log), at, slot);
    }

    /** One attempt; a failure means that the word of the bucket has changed. */
    method LinkTurn(t: nat, k: Key, prev: nat, ghost plen: nat, idx: nat, slot: nat, ghost loaded: seq<(nat, Action)>)
      returns (ok: bool, word: nat, ghost len: nat, ghost at: seq<(nat, Action)>)
      requires Valid() && In(t, SetNext(k, prev, plen, idx)) && idx < cfg.n && slot == Bucket(cfg, k)
      requires Was(loaded, slot, prev)
      modifies this`st, this`log, slots
      ensures Valid() && Going(t) && old(log) <= log
      ensures ok ==> In(t, if slot == idx then Done(k, New(idx)) else StateUp(k, idx))
      ensures !ok ==> In(t, FindHead(k, Again(word, len, idx)))
      ensures Was(at, slot, word)
      ensures !ok ==>
        Changes(cfg, Initial(cfg, threadCount), at, slot) > Changes(cfg, Initial(cfg, threadCount), loaded, slot)
    {
      hide Run, Inv, Bucket, Exec, Changes, Values, Stored, InsertMap.Going;
      WriteNext(t, k, prev, plen, idx);
      ok, word, len, at := CasHead(t, k, prev, plen, idx, slot);
      ChangedSince(cfg, Initial(cfg, threadCount), loaded, at, slot);
    }

    method LinkLoop(t: nat, k: Key, first: nat, ghost flen: nat, idx: nat, slot: nat,
                    ghost loaded: seq<(nat, Action)>, spins: nat) returns (r: Option<Result>)
      requires Valid() && In(t, SetNext(k, first, flen, idx)) && idx < cfg.n && slot == Bucket(cfg, k)
      requires Was(loaded, slot, first)
      modifies this`st, this`log, slots
      ensures Valid() && Going(t) && (r.Some? ==> In(t, Done(k, r.value)) && (r.value.New? || r.value.Existing?))
      ensures r.None? ==> Changed(slot) > Changes(cfg, Initial(cfg, threadCount), loaded, slot) + spins
    {
      hide Run, Inv, Bucket, Exec, Changes, Values, Stored, InsertMap.Going;
      var prev := first;
      ghost var plen := flen;
      ghost var at := loaded;
      ghost var s0 := Initial(cfg, threadCount);
      var left := spins;
      while true
        invariant Valid() && In(t, SetNext(k, prev, plen, idx)) && Was(at, slot, prev)
        invariant 0 <= left <= spins && Changes(cfg, s0, at, slot) >= Changes(cfg, s0, loaded, slot) + spins - left
        decreases left
      {
        var ok: bool;
        ok, prev, plen, at := LinkTurn(t, k, prev, plen, idx, slot, at);
        if ok {
          if idx != slot {
            StateUpdate(t, StateUp(k, idx), CONSTRUCTING, LINKED);
          }
          return Some(New(idx));
        }
        var existing := FindNode(t, k, Again(prev, plen, idx), slot);
        if existing != 0 {
          StateUpdate(t, Abort(k, idx, existing), CONSTRUCTING, EMPTY);
          return Some(Existing(existing));
        }
        if left == 0 {
          ChangedSince(cfg, s0, at, log, slot);
          return None;
        }
        left := left - 1;
      }
    }
  }

  lemma OwnsSlot(cfg: Config, s: State, t: nat)
    requires Inv(cfg, s) && t < |s.threads| && s.threads[t].Construct?
    ensures var i := s.threads[t].idx; 0 < i < cfg.n && Sized(cfg, s.mem) && Own(cfg, s.mem, t, i)
  {
    InvParts(cfg, s, t);
    assert SlotOk(s.mem, s.threads, 0);
  }

  lemma BeingBuilt(cfg: Config, s: State, t: nat)
    requires Inv(cfg, s) && t < |s.threads| && (s.threads[t].StateUp? || s.threads[t].Abort?)
    ensures Sized(cfg, s.mem) && s.threads[t].idx < cfg.n && s.mem.words[s.threads[t].idx] > 0
  {
    InvParts(cfg, s, t);
  }

  /** A find is at `node`. */
  predicate Walking(l: Local, k: Key, call: Call, node: nat) {
    l.Walk? && l.key == k && l.call == call && l.node == node
  }

  /** What follows a find that ended with `node`. */
  predicate AfterFind(l: Local, k: Key, call: Call, node: nat) {
    match call
    case Lookup => l.Done? && l.key == k && l.result.Found? && l.result.node == node
    case First(prev, plen) => l == if node == 0 then Alloc(k, prev, plen, 0) else Done(k, Existing(node))
    case Again(prev, plen, idx) => l == if node == 0 then SetNext(k, prev, plen, idx) else Abort(k, idx, node)
  }

  lemma OneStep(cfg: Config, s: State, t: nat, a: Action)
    requires Inv(cfg, s) && Inv(cfg, Exec(cfg, s, t, a))
    ensures Sized(cfg, s.mem) && Sized(cfg, Exec(cfg, s, t, a).mem)
  {
  }

  lemma InBucket(cfg: Config, s: State, b: nat)
    requires Inv(cfg, s) && b < cfg.n
    ensures Sized(cfg, s.mem) && Head(s.mem.words[b]) < cfg.n
  {
    assert BucketOk(cfg, s.mem, b);
  }

  lemma AtNode(cfg: Config, s: State, t: nat)
    requires Inv(cfg, s) && t < |s.threads| && s.threads[t].Walk? && s.threads[t].node != 0
    ensures Sized(cfg, s.mem) && s.threads[t].node < cfg.n && s.mem.next[s.threads[t].node] < cfg.n
    ensures s.threads[t].pos > 0
  {
    hide Bucket;
    WalkNode(cfg, s, t);
  }

  lemma Answered(cfg: Config, s: State, t: nat)
    requires Inv(cfg, s) && t < |s.threads| && s.threads[t].Done? && s.threads[t].result.Found?
    ensures var r := s.threads[t].result; (r.was <==> r.node != 0) && (r.was ==> Has(s.mem, s.threads[t].key, r.node))
  {
    InvParts(cfg, s, t);
  }
}
