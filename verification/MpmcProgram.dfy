/** enqueue and dequeue of libs/mpmc_queue.hpp:57-107 as written: loops over local
    variables that read and write the ring in place, with the other threads running
    between any two accesses. Each is proved to be one call in a run of module
    MpmcQueue from the state it was called in, so what holds of all runs holds of it. */
module MpmcProgram {
  import opened Common
  import opened MpmcQueue

  ghost predicate NotOf<T>(schedule: seq<(nat, Action<T>)>, t: nat) {
    forall i :: 0 <= i < |schedule| ==> schedule[i].0 != t
  }

  /** `s'` is where other threads than `t` can bring `s`. */
  ghost predicate OthersRan<T(!new)>(s: State<T>, s': State<T>, t: nat) {
    |s.cells| > 0 && exists schedule :: NotOf(schedule, t) && s' == Run(s, schedule)
  }

  lemma OtherKeeps<T>(s: State<T>, t: nat, u: nat, a: Action<T>)
    requires |s.cells| > 0 && t < |s.threads| && u < |s.threads| && u != t
    ensures var s' := Exec(s, u, a);
      && |s'.cells| == |s.cells| && |s'.threads| == |s.threads| && s'.threads[t] == s.threads[t]
      && s.vals <= s'.vals && s.deqPos <= s'.deqPos
  {
    hide Sq, Data, Slot;
  }

  lemma {:induction false} OthersKeep<T>(s: State<T>, schedule: seq<(nat, Action<T>)>, t: nat)
    requires |s.cells| > 0 && t < |s.threads| && NotOf(schedule, t)
    ensures var s' := Run(s, schedule);
      && |s'.cells| == |s.cells| && |s'.threads| == |s.threads| && s'.threads[t] == s.threads[t]
      && s.vals <= s'.vals && s.deqPos <= s'.deqPos
    decreases |schedule|
  {
    if |schedule| > 0 {
      hide Exec;
      var less, last := schedule[..|schedule| - 1], schedule[|schedule| - 1];
      OthersKeep(s, less, t);
      if last.0 < |Run(s, less).threads| {
        OtherKeeps(Run(s, less), t, last.0, last.1);
      }
    }
  }

  /** What follows `before` in the log is a call, if `t` began one there and only went on. */
  lemma CallSuffix<T(!new)>(before: seq<(nat, Action<T>)>, begun: seq<(nat, Action<T>)>, log: seq<(nat, Action<T>)>,
                            t: nat, start: Action<T>)
    requires begun == before + [(t, start)] && begun <= log
    requires forall i :: |begun| <= i < |log| && log[i].0 == t ==> log[i].1.Go? || log[i].1.FailSpuriously?
    ensures before <= log && log == before + log[|before|..] && IsCall(log[|before|..], t, start)
  {
  }

  class Queue<T(!new)> {
    var cells: array<Cell<T>>
    var enqueuePos: nat
    var dequeuePos: nat
    /** The same in the state machine, with the threads and the history. */
    ghost var st: State<T>
    /** Every step since the ring was made, and what that was when the call at hand had
        taken its first. */
    ghost var log: seq<(nat, Action<T>)>
    ghost var begun: seq<(nat, Action<T>)>
    ghost const threadCount: nat

    ghost predicate Traced()
      reads this
    {
      Inv(st) && cells.Length >= 2 && st == Run(Initial(cells.Length, threadCount), log)
    }

    ghost predicate Valid()
      reads this, cells
    {
      && Traced() && BitAnd(cells.Length, cells.Length - 1) == 0
      && cells[..] == st.cells && enqueuePos == st.enqPos && dequeuePos == st.deqPos
    }

    /** The theorems about all runs apply to the ring as it is. */
    lemma IsReachable()
      requires Valid()
      ensures Reachable(st)
    {
    }

    /** Thread `t` began its call with the last step of `begun` and has only gone on
        since. */
    ghost predicate Going(t: nat)
      reads this
    {
      && t < |st.threads| && |begun| > 0 && begun <= log && begun[|begun| - 1].0 == t
      && forall i :: |begun| <= i < |log| && log[i].0 == t ==> log[i].1.Go? || log[i].1.FailSpuriously?
    }

    /** How often `t` has failed spuriously. */
    ghost function Failed(t: nat): nat
      reads this
    {
      Spurious(log, t)
    }

    ghost predicate In(t: nat, l: Local<T>)
      reads this
    {
      t < |st.threads| && Going(t) && st.threads[t] == l
    }

    constructor (size: nat, threadCount: nat, blank: Cell<T>)
      requires size >= 2 && BitAnd(size, size - 1) == 0 && blank.data.None?
      ensures Valid() && cells.Length == size && st == Initial(size, threadCount) && log == []
    {
      this.threadCount := threadCount;
      log, begun := [], [];
      cells := new Cell<T>[size](_ => blank);
      enqueuePos, dequeuePos := 0, 0;
      st := Initial(size, threadCount);
      new;
      InitialInv<T>(size, threadCount);
      var i := 0;
      while i != size
        invariant i <= size == cells.Length
        invariant forall j :: 0 <= j < i ==> cells[j] == Cell(j, None)
        invariant forall j :: i <= j < size ==> cells[j].data.None?
        invariant st == Initial(size, threadCount) && enqueuePos == 0 == dequeuePos && log == []
        modifies cells
      {
        cells[i] := cells[i].(seqno := i);
        i := i + 1;
      }
      assert cells[..] == st.cells;
    }

    /** The other threads run for a while; how long is not specified. The last two
        clauses follow from the one before (`OthersKeep`). */
    method Others(t: nat)
      requires Valid() && t < |st.threads|
      modifies this`enqueuePos, this`dequeuePos, this`st, this`log, cells
      ensures Valid() && OthersRan(old(st), st, t)
      ensures old(log) <= log && NotOf(log[|old(log)|..], t)
      ensures |st.cells| == |old(st).cells| && |st.threads| == |old(st).threads|
      ensures st.threads[t] == old(st).threads[t] && old(st).vals <= st.vals && old(st).deqPos <= st.deqPos
      ensures Failed(t) == old(Failed(t))
    {
      assert NotOf<T>([], t) && st == Run(st, []);
      OthersKeep(st, [], t);
    }

    /** Thread `t`'s step in the state machine. */
    ghost method Tick(t: nat, a: Action<T>)
      requires Traced() && t < |st.threads| && |st.cells| > 0
      modifies this`st, this`log
      ensures Traced() && st == Exec(old(st), t, a) && log == old(log) + [(t, a)]
      ensures Failed(t) == old(Failed(t)) + (if a.FailSpuriously? then 1 else 0)
    {
      ExecInv(st, t, a);
      st := Exec(st, t, a);
      log := log + [(t, a)];
      assert log[..|log| - 1] == old(log);
    }

    /** The first step of a call. */
    ghost method Begin(t: nat, start: Action<T>)
      requires Traced() && t < |st.threads| && |st.cells| > 0 && st.threads[t].Done?
      modifies this`st, this`log, this`begun
      ensures Traced() && Going(t) && st == Exec(old(st), t, start) && begun == old(log) + [(t, start)]
      ensures Failed(t) == old(Failed(t)) + (if start.FailSpuriously? then 1 else 0)
    {
      hide Inv, Run, Spurious;
      begun := log + [(t, start)];
      Tick(t, start);
    }

    // ----- The accesses, each after the others have run -----

    method LoadEnqueuePos(t: nat, v: T) returns (pos: nat)
      requires Valid() && In(t, EnqLoadPos(v))
      modifies this`enqueuePos, this`dequeuePos, this`st, this`log, cells
      ensures Valid() && In(t, EnqLoadSeq(v, pos)) && |old(st).vals| <= pos && Failed(t) == old(Failed(t))
    {
      hide Inv, Run, Spurious;
      Others(t);
      CountsTickets(st);
      pos := enqueuePos;
      Tick(t, Go);
    }

    method LoadSequence(t: nat, pos: nat) returns (seqno: nat)
      requires Valid() && Going(t) && (st.threads[t].EnqLoadSeq? || st.threads[t].DeqLoadSeq?)
      requires st.threads[t].pos == pos
      modifies this`enqueuePos, this`dequeuePos, this`st, this`log, cells
      ensures Valid() && Going(t) && t < |st.threads|
      ensures match old(st).threads[t]
              case EnqLoadSeq(v, _) =>
                st.threads[t] == (if seqno == pos then EnqCas(v, pos)
                                  else if seqno < pos then Done(Enqueued(false))
                                  else EnqLoadPos(v))
              case _ =>
                st.threads[t] == (if seqno == pos + 1 then DeqCas(pos)
                                  else if seqno < pos + 1 then Done(Dequeued(None))
                                  else DeqLoadPos)
      ensures Failed(t) == old(Failed(t))
      ensures old(st).threads[t].EnqLoadSeq? && seqno > pos ==> pos < |st.vals|
      ensures old(st).threads[t].DeqLoadSeq? && seqno > pos + 1 ==> pos < st.deqPos
    {
      hide Inv, Run, Spurious;
      Others(t);
      AheadMeansTaken(st, t);
      CountsTickets(st);
      MaskedIndex(pos, cells.Length);
      seqno := cells[BitAnd(pos, cells.Length - 1)].seqno;
      Tick(t, Go);
    }

    /** compare_exchange_weak: may fail for no reason; a failure loads the position. */
    method CasEnqueuePos(t: nat, v: T, expected: nat) returns (ok: bool, pos: nat)
      requires Valid() && In(t, EnqCas(v, expected))
      modifies this`enqueuePos, this`dequeuePos, this`st, this`log, cells
      ensures Valid() && Going(t) && t < |st.threads|
      ensures ok ==> pos == expected < |st.vals| && st.vals[pos] == v && st.threads[t] == EnqWrite(v, pos)
      ensures !ok ==> st.threads[t] == EnqLoadSeq(v, pos) && pos + Failed(t) > expected + old(Failed(t))
    {
      hide Inv, Run, Spurious;
      Others(t);
      AheadMeansTaken(st, t);
      var fails: bool := *;
      ok := enqueuePos == expected && !fails;
      pos := enqueuePos;
      CountsTickets(st);
      if ok {
        enqueuePos := expected + 1;
      }
      Tick(t, if fails then FailSpuriously else Go);
    }

    method StoreData(t: nat, v: T, pos: nat)
      requires Valid() && In(t, EnqWrite(v, pos))
      modifies this`enqueuePos, this`dequeuePos, this`st, this`log, cells
      ensures Valid() && In(t, EnqPublish(v, pos)) && old(st).vals <= st.vals
    {
      hide Inv, Run, Spurious;
      Others(t);
      MaskedIndex(pos, cells.Length);
      var i := BitAnd(pos, cells.Length - 1);
      cells[i] := cells[i].(data := Some(v));
      Tick(t, Go);
      assert cells[..] == st.cells;
    }

    method StoreSequence(t: nat, v: T, pos: nat)
      requires Valid() && In(t, EnqPublish(v, pos))
      modifies this`enqueuePos, this`dequeuePos, this`st, this`log, cells
      ensures Valid() && In(t, Done(Enqueued(true))) && old(st).vals <= st.vals
    {
      hide Inv, Run, Spurious;
      Others(t);
      MaskedIndex(pos, cells.Length);
      var i := BitAnd(pos, cells.Length - 1);
      cells[i] := cells[i].(seqno := pos + 1);
      Tick(t, Go);
      assert cells[..] == st.cells;
    }

    /** The steps since `before` are a call, when `t` began one there. */
    lemma SinceRan(s: State<T>, before: seq<(nat, Action<T>)>, t: nat, start: Action<T>)
      requires Valid() && Going(t) && begun == before + [(t, start)]
      requires s == Run(Initial(cells.Length, threadCount), before) && |s.cells| > 0
      ensures before <= log && IsCall(log[|before|..], t, start) && st == Run(s, log[|before|..])
      ensures Failed(t) == Spurious(before, t) + Spurious(log[|before|..], t)
    {
      CallSuffix(before, begun, log, t, start);
      hide Inv, Run, Spurious, IsCall, Queue.Going;
      var schedule := log[|before|..];
      SpuriousAppend(before, schedule, t);
      RunAppend(Initial(cells.Length, threadCount), before, schedule);
    }

    /** What the steps since `before` amount to, when `t` began enqueue(v) there. */
    lemma EnqueueRan(s: State<T>, before: seq<(nat, Action<T>)>, t: nat, v: T)
      requires Valid() && Going(t) && begun == before + [(t, StartEnqueue(v))]
      requires s == Run(Initial(cells.Length, threadCount), before) && Inv(s) && t < |s.threads| && s.threads[t].Done?
      ensures |s.cells| > 0 && |st.threads| == |s.threads| && CallRan(s, st, t, StartEnqueue(v))
      ensures st.threads[t] == Done(Enqueued(true)) ==>
        exists k :: |s.vals| <= k < |st.vals| && st.vals[k] == v && k in st.published
      ensures st.threads[t] == Done(Enqueued(false)) ==> RefusedCall(s, st, t, StartEnqueue(v))
      ensures before <= log && st == Run(s, log[|before|..])
      ensures Failed(t) == Spurious(before, t) + Spurious(log[|before|..], t)
    {
      InvShape(s);
      SinceRan(s, before, t, StartEnqueue(v));
      hide Inv, Run, Spurious, IsCall, SawCrowded, SawStarved, Queue.Going;
      var schedule := log[|before|..];
      EnqueueCall(s, t, v, schedule);
    }

    method EnqueueSteps(t: nat, v: T, spins: nat) returns (r: Option<bool>, ghost ticket: nat)
      requires Valid() && In(t, EnqLoadPos(v))
      modifies this`enqueuePos, this`dequeuePos, this`st, this`log, cells
      ensures Valid() && Going(t) && (r.Some? ==> In(t, Done(Enqueued(r.value))))
      ensures r.None? ==> In(t, EnqLoadSeq(v, ticket)) && ticket + Failed(t) > |old(st).vals| + old(Failed(t)) + spins
    {
      hide Inv, Run, Exec, Queue.Going, Queue.Failed;
      var pos: nat := LoadEnqueuePos(t, v);
      var left := spins;
      while true
        invariant Valid() && In(t, EnqLoadSeq(v, pos))
        invariant 0 <= left <= spins && pos + Failed(t) >= |old(st).vals| + old(Failed(t)) + spins - left
        decreases left
      {
        var seqno := LoadSequence(t, pos);
        if seqno == pos {
          var ok: bool;
          ok, pos := CasEnqueuePos(t, v, pos);
          if ok {
            break;
          }
        } else if seqno < pos {
          return Some(false), pos;
        } else {
          pos := LoadEnqueuePos(t, v);
        }
        if left == 0 {
          return None, pos;
        }
        left := left - 1;
      }
      StoreData(t, v, pos);
      StoreSequence(t, v, pos);
      return Some(true), pos;
    }

    /** enqueue. `spins` bounds the turns of the retry loop; None is a call that has not
        come to an end by then, while more than that many tickets were handed out, spurious
        failures counted in. The method is one call of the state machine, run from the
        state it was called in; a true answer has the value under a ticket of its own, and
        a false one saw the ring crowded. */
    method Enqueue(t: nat, v: T, spins: nat) returns (r: Option<bool>, ghost ticket: nat)
      requires Valid() && t < |st.threads| && st.threads[t].Done?
      modifies this`enqueuePos, this`dequeuePos, this`st, this`log, this`begun, cells
      ensures Valid() && |st.threads| == |old(st).threads| && CallRan(old(st), st, t, StartEnqueue(v))
      ensures r.Some? ==> st.threads[t] == Done(Enqueued(r.value))
      ensures r == Some(true) ==> |old(st).vals| <= ticket < |st.vals| && st.vals[ticket] == v && ticket in st.published
      ensures r == Some(false) ==> RefusedCall(old(st), st, t, StartEnqueue(v))
      ensures r.None? ==> st.threads[t] == EnqLoadSeq(v, ticket)
      ensures old(log) <= log && st == Run(old(st), log[|old(log)|..])
      ensures r.None? ==> |st.vals| + Spurious(log[|old(log)|..], t) > |old(st).vals| + spins
    {
      hide Inv, Run, Queue.Going, Spurious;
      Begin(t, StartEnqueue(v));
      hide Exec;
      r, ticket := EnqueueSteps(t, v, spins);
      EnqueueRan(old(st), old(log), t, v);
      PositionBound(st, t);
      if r == Some(true) {
        ticket :| |old(st).vals| <= ticket < |st.vals| && st.vals[ticket] == v && ticket in st.published;
      }
    }

    method LoadDequeuePos(t: nat) returns (pos: nat)
      requires Valid() && In(t, DeqLoadPos)
      modifies this`enqueuePos, this`dequeuePos, this`st, this`log, cells
      ensures Valid() && In(t, DeqLoadSeq(pos)) && old(st).deqPos <= pos && Failed(t) == old(Failed(t))
    {
      hide Inv, Run, Spurious;
      Others(t);
      pos := dequeuePos;
      Tick(t, Go);
    }

    method CasDequeuePos(t: nat, expected: nat) returns (ok: bool, pos: nat)
      requires Valid() && In(t, DeqCas(expected))
      modifies this`enqueuePos, this`dequeuePos, this`st, this`log, cells
      ensures Valid() && Going(t) && t < |st.threads|
      ensures st.threads[t] == (if ok then DeqRead(pos) else DeqLoadSeq(pos)) && (ok ==> pos == expected)
      ensures !ok ==> pos + Failed(t) > expected + old(Failed(t))
    {
      hide Inv, Run, Spurious;
      Others(t);
      AheadMeansTaken(st, t);
      var fails: bool := *;
      ok := dequeuePos == expected && !fails;
      pos := dequeuePos;
      if ok {
        dequeuePos := expected + 1;
      }
      Tick(t, if fails then FailSpuriously else Go);
    }

    method LoadData(t: nat, pos: nat) returns (x: T)
      requires Valid() && In(t, DeqRead(pos))
      modifies this`enqueuePos, this`dequeuePos, this`st, this`log, cells
      ensures Valid() && In(t, DeqPublish(pos, x))
    {
      hide Inv, Run, Spurious;
      Others(t);
      MaskedIndex(pos, cells.Length);
      HoldsValue(st, t);
      x := cells[BitAnd(pos, cells.Length - 1)].data.value;
      Tick(t, Go);
    }

    method HandBack(t: nat, pos: nat, x: T)
      requires Valid() && In(t, DeqPublish(pos, x))
      modifies this`enqueuePos, this`dequeuePos, this`st, this`log, cells
      ensures Valid() && In(t, Done(Dequeued(Some(x))))
      ensures pos < |st.vals| && x == st.vals[pos] && (pos, x) in st.got
    {
      hide Inv, Run, Spurious;
      Others(t);
      MaskedIndex(pos, cells.Length);
      HoldsValue(st, t);
      var i := BitAnd(pos, cells.Length - 1);
      cells[i] := cells[i].(seqno := pos + (cells.Length - 1) + 1);
      Tick(t, Go);
      assert cells[..] == st.cells;
      assert st.got[|st.got| - 1] == (pos, x);
    }

    lemma DequeueRan(s: State<T>, before: seq<(nat, Action<T>)>, t: nat)
      requires Valid() && Going(t) && begun == before + [(t, StartDequeue)]
      requires s == Run(Initial(cells.Length, threadCount), before) && Inv(s) && t < |s.threads| && s.threads[t].Done?
      ensures |s.cells| > 0 && |st.threads| == |s.threads| && CallRan(s, st, t, StartDequeue)
      ensures match st.threads[t]
              case Done(Dequeued(Some(x))) =>
                exists k :: s.deqPos <= k < |st.vals| && x == st.vals[k] && (k, x) in st.got
              case Done(Dequeued(None)) => RefusedCall(s, st, t, StartDequeue)
              case _ => true
      ensures before <= log && st == Run(s, log[|before|..])
      ensures Failed(t) == Spurious(before, t) + Spurious(log[|before|..], t)
    {
      InvShape(s);
      SinceRan(s, before, t, StartDequeue);
      hide Inv, Run, Spurious, IsCall, SawCrowded, SawStarved, Queue.Going;
      var schedule := log[|before|..];
      DequeueCall(s, t, schedule);
    }

    method DequeueSteps(t: nat, spins: nat) returns (r: Option<Option<T>>, ghost ticket: nat)
      requires Valid() && In(t, DeqLoadPos)
      modifies this`enqueuePos, this`dequeuePos, this`st, this`log, cells
      ensures Valid() && Going(t) && (r.Some? ==> In(t, Done(Dequeued(r.value))))
      ensures r.None? ==> In(t, DeqLoadSeq(ticket)) && ticket + Failed(t) > old(st).deqPos + old(Failed(t)) + spins
    {
      hide Inv, Run, Exec, Queue.Going, Queue.Failed;
      var pos: nat := LoadDequeuePos(t);
      var left := spins;
      while true
        invariant Valid() && In(t, DeqLoadSeq(pos))
        invariant 0 <= left <= spins && pos + Failed(t) >= old(st).deqPos + old(Failed(t)) + spins - left
        decreases left
      {
        var seqno := LoadSequence(t, pos);
        if seqno == pos + 1 {
          var ok: bool;
          ok, pos := CasDequeuePos(t, pos);
          if ok {
            break;
          }
        } else if seqno < pos + 1 {
          return Some(None), pos;
        } else {
          pos := LoadDequeuePos(t);
        }
        if left == 0 {
          return None, pos;
        }
        left := left - 1;
      }
      var x := LoadData(t, pos);
      HandBack(t, pos, x);
      return Some(Some(x)), pos;
    }

    /** dequeue, under the same bound. The value is the one of a ticket that this call
        took; an empty answer saw the next ticket unpublished. */
    method Dequeue(t: nat, spins: nat) returns (r: Option<Option<T>>, ghost ticket: nat)
      requires Valid() && t < |st.threads| && st.threads[t].Done?
      modifies this`enqueuePos, this`dequeuePos, this`st, this`log, this`begun, cells
      ensures Valid() && |st.threads| == |old(st).threads| && CallRan(old(st), st, t, StartDequeue)
      ensures r.Some? ==> st.threads[t] == Done(Dequeued(r.value))
      ensures r.Some? && r.value.Some? ==>
        old(st).deqPos <= ticket < |st.vals| && r.value.value == st.vals[ticket] && (ticket, r.value.value) in st.got
      ensures r == Some(None) ==> RefusedCall(old(st), st, t, StartDequeue)
      ensures r.None? ==> st.threads[t] == DeqLoadSeq(ticket)
      ensures old(log) <= log && st == Run(old(st), log[|old(log)|..])
      ensures r.None? ==> st.deqPos + Spurious(log[|old(log)|..], t) > old(st).deqPos + spins
    {
      hide Inv, Run, Queue.Going, Spurious;
      Begin(t, StartDequeue);
      hide Exec;
      r, ticket := DequeueSteps(t, spins);
      DequeueRan(old(st), old(log), t);
      PositionBound(st, t);
      if r.Some? && r.value.Some? {
        var x := r.value.value;
        ticket :| old(st).deqPos <= ticket < |st.vals| && x == st.vals[ticket] && (ticket, x) in st.got;
      }
    }
  }

  lemma HoldsValue<T>(s: State<T>, t: nat)
    requires Inv(s) && t < |s.threads| && |s.cells| > 0
    ensures s.threads[t].DeqRead? ==> Data(s.cells, s.threads[t].pos).Some?
    ensures s.threads[t].DeqPublish? ==> s.threads[t].pos < |s.vals| && s.threads[t].x == s.vals[s.threads[t].pos]
  {
    assert ThreadOk(s, s.threads[t]);
  }

  lemma PositionBound<T>(s: State<T>, t: nat)
    requires Inv(s) && t < |s.threads|
    ensures s.threads[t].EnqLoadSeq? ==> s.threads[t].pos <= |s.vals|
    ensures s.threads[t].DeqLoadSeq? ==> s.threads[t].pos <= s.deqPos
  {
    AheadMeansTaken(s, t);
  }

  lemma CountsTickets<T>(s: State<T>)
    requires Inv(s)
    ensures |s.vals| == s.enqPos
  {
  }
}
