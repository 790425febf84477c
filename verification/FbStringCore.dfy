/** Copy-on-write strings: fbstring_core (libs/folly/folly/FBString.h:315-983). All
    string objects of a program live in one `Strings` object together with the blocks
    they own; strings are named by numbers, blocks by their addresses. */
module FbStringCore {
  import opened Common
  import opened FbStringLayout

  /** A block from malloc: plain for a medium string, with a reference count in front
      for a large one. A plain block has its one owner. */
  datatype Block = Block(counted: bool, refs: nat, chars: seq<Byte>)

  type Heap = map<nat, Block>

  // ----- The invariant -----

  function AddrOf(r: Rep): Option<nat> {
    match r
    case Small(_) => None
    case Medium(a, _, _) => Some(a)
    case Large(a, _, _) => Some(a)
  }

  predicate Holds(heap: Heap, a: nat, size: nat, capacity: nat, counted: bool) {
    && 0 < a < WORD_LIMIT && size <= capacity < CAPACITY_LIMIT
    && a in heap && heap[a].counted == counted
    && |heap[a].chars| == capacity + 1 && heap[a].chars[size] == 0
  }

  /** One string is in order: its text fits and is followed by the terminator. */
  predicate RepOk(heap: Heap, r: Rep) {
    match r
    case Small(text) => |text| <= MAX_SMALL
    case Medium(a, n, cap) => Holds(heap, a, n, cap, false) && heap[a].refs == 1
    case Large(a, n, cap) => Holds(heap, a, n, cap, true) && cap > MAX_MEDIUM
  }

  function Text(heap: Heap, r: Rep): seq<Byte>
    requires RepOk(heap, r)
  {
    match r
    case Small(text) => text
    case Medium(a, n, _) => heap[a].chars[..n]
    case Large(a, n, _) => heap[a].chars[..n]
  }

  ghost function Owners(reps: map<nat, Rep>, a: nat): set<nat> {
    set i | i in reps && AddrOf(reps[i]) == Some(a)
  }

  /** Every string is in order, and every block has as many owners as it counts, and
      at least one. */
  ghost predicate Inv(heap: Heap, reps: map<nat, Rep>) {
    && (forall i :: i in reps ==> RepOk(heap, reps[i]))
    && (forall a :: a in heap ==> heap[a].refs == |Owners(reps, a)| && heap[a].refs > 0)
  }

  /** What a user of the strings sees. */
  ghost function Texts(heap: Heap, reps: map<nat, Rep>): map<nat, seq<Byte>>
    requires Inv(heap, reps)
  {
    map i | i in reps :: Text(heap, reps[i])
  }

  // ----- Counting owners -----

  lemma OwnersUpdate(reps: map<nat, Rep>, i: nat, r: Rep, a: nat)
    ensures |Owners(reps[i := r], a)|
      == |Owners(reps, a)| - (if i in reps && AddrOf(reps[i]) == Some(a) then 1 else 0)
                           + (if AddrOf(r) == Some(a) then 1 else 0)
  {
    var rest := Owners(reps, a) - {i};
    if AddrOf(r) == Some(a) {
      assert Owners(reps[i := r], a) == rest + {i};
    } else {
      assert Owners(reps[i := r], a) == rest;
    }
    if i in reps && AddrOf(reps[i]) == Some(a) {
      assert Owners(reps, a) == rest + {i};
    } else {
      assert Owners(reps, a) == rest;
    }
  }

  lemma NoOwners(heap: Heap, reps: map<nat, Rep>, a: nat)
    requires Inv(heap, reps) && a !in heap
    ensures Owners(reps, a) == {}
  {
    forall i | i in reps ensures AddrOf(reps[i]) != Some(a) {
      assert RepOk(heap, reps[i]);
    }
  }

  /** How many owners block `a` has once string `i` is given the representation `r`. */
  function Balance(heap: Heap, reps: map<nat, Rep>, i: nat, r: Rep, a: nat): int {
    (if a in heap then heap[a].refs else 0) - (if i in reps && AddrOf(reps[i]) == Some(a) then 1 else 0)
    + (if AddrOf(r) == Some(a) then 1 else 0)
  }

  /** The block of a string other than the one being changed. */
  predicate Kept(heap: Heap, heap': Heap, q: Rep) {
    AddrOf(q).None? ||
    var a := AddrOf(q).value;
    a in heap && a in heap' && heap'[a].chars == heap[a].chars && heap'[a].counted == heap[a].counted
    && (q.Medium? ==> heap'[a].refs == heap[a].refs)
  }

  lemma KeptOk(heap: Heap, heap': Heap, q: Rep)
    requires RepOk(heap, q) && Kept(heap, heap', q)
    ensures RepOk(heap', q) && Text(heap', q) == Text(heap, q)
  {
  }

  lemma CountsFollow(heap: Heap, reps: map<nat, Rep>, heap': Heap, i: nat, r: Rep)
    requires Inv(heap, reps)
    requires forall a :: a in heap' ==> heap'[a].refs == Balance(heap, reps, i, r, a)
    ensures forall a :: a in heap' ==> heap'[a].refs == |Owners(reps[i := r], a)|
  {
    hide Owners, RepOk;
    forall a | a in heap'
      ensures heap'[a].refs == |Owners(reps[i := r], a)|
    {
      OwnersUpdate(reps, i, r, a);
      if a !in heap {
        NoOwners(heap, reps, a);
      }
    }
  }

  /** The one way the state changes: string `i` gets a new representation, the counts
      follow, and no other string's block is written. */
  lemma ChangeOne(heap: Heap, reps: map<nat, Rep>, heap': Heap, i: nat, r: Rep)
    requires Inv(heap, reps) && RepOk(heap', r)
    requires forall a :: a in heap' ==> heap'[a].refs == Balance(heap, reps, i, r, a) && heap'[a].refs > 0
    requires forall j :: j in reps && j != i ==> Kept(heap, heap', reps[j])
    ensures Inv(heap', reps[i := r])
    ensures Texts(heap', reps[i := r]) == Texts(heap, reps)[i := Text(heap', r)]
  {
    hide Owners, RepOk, Text, Kept, Balance;
    var reps' := reps[i := r];
    CountsFollow(heap, reps, heap', i, r);
    forall j | j in reps && j != i
      ensures RepOk(heap', reps[j]) && Text(heap', reps[j]) == Text(heap, reps[j])
    {
      KeptOk(heap, heap', reps[j]);
    }
  }

  lemma OtherOwner(heap: Heap, reps: map<nat, Rep>, i: nat, j: nat)
    requires Inv(heap, reps) && i in reps && j in reps && i != j
    requires AddrOf(reps[i]).Some? && AddrOf(reps[i]) == AddrOf(reps[j])
    ensures heap[AddrOf(reps[i]).value].refs >= 2
  {
    var a := AddrOf(reps[i]).value;
    assert RepOk(heap, reps[i]);
    assert {i, j} <= Owners(reps, a);
    SubsetSize({i, j}, Owners(reps, a));
  }

  lemma SubsetSize(s: set<nat>, t: set<nat>)
    requires s <= t
    ensures |s| <= |t|
  {
    assert t == s + (t - s);
  }

  // ----- The changes the operations make -----

  predicate Apart(reps: map<nat, Rep>, i: nat) { i !in reps || reps[i].Small? }

  /** A representation newly made for `text`: inside the object, or in block `a`, which
      was not in use. */
  predicate Made(heap: Heap, heap': Heap, a: nat, r: Rep, text: seq<Byte>) {
    if r.Small? then r.text == text && |text| <= MAX_SMALL && heap' == heap
    else
      && a !in heap && a in heap' && heap' == heap[a := heap'[a]] && heap'[a].refs == 1
      && AddrOf(r) == Some(a) && RepOk(heap', r) && Text(heap', r) == text
  }

  /** decrementRefs, and free for a plain block: the block goes with its last owner. */
  function Release(heap: Heap, a: nat): Heap
    requires a in heap && heap[a].refs > 0
  {
    if heap[a].refs == 1 then heap - {a} else heap[a := heap[a].(refs := heap[a].refs - 1)]
  }

  lemma MakeInv(heap: Heap, reps: map<nat, Rep>, i: nat, heap': Heap, a: nat, r: Rep, text: seq<Byte>)
    requires Inv(heap, reps) && Apart(reps, i) && Made(heap, heap', a, r, text)
    ensures Inv(heap', reps[i := r]) && RepOk(heap', r)
    ensures Texts(heap', reps[i := r]) == Texts(heap, reps)[i := text]
  {
    forall j | j in reps && j != i ensures Kept(heap, heap', reps[j]) {
      assert RepOk(heap, reps[j]);
    }
    ChangeOne(heap, reps, heap', i, r);
  }

  lemma ReleaseInv(heap: Heap, reps: map<nat, Rep>, i: nat, text: seq<Byte>)
    requires Inv(heap, reps) && i in reps && AddrOf(reps[i]).Some? && |text| <= MAX_SMALL
    ensures var a := AddrOf(reps[i]).value;
      && a in heap && heap[a].refs > 0 && Inv(Release(heap, a), reps[i := Small(text)])
      && Texts(Release(heap, a), reps[i := Small(text)]) == Texts(heap, reps)[i := text]
  {
    var a := AddrOf(reps[i]).value;
    assert RepOk(heap, reps[i]);
    var heap' := Release(heap, a);
    forall j | j in reps && j != i ensures Kept(heap, heap', reps[j]) {
      assert RepOk(heap, reps[j]);
      if AddrOf(reps[j]) == Some(a) {
        OtherOwner(heap, reps, i, j);
      }
    }
    ChangeOne(heap, reps, heap', i, Small(text));
  }

  /** The old block is given up for a new representation. */
  lemma ReplaceInv(heap: Heap, reps: map<nat, Rep>, i: nat, made: Heap, a: nat, r: Rep, text: seq<Byte>)
    requires Inv(heap, reps) && i in reps && AddrOf(reps[i]).Some? && Made(heap, made, a, r, text)
    ensures var was := AddrOf(reps[i]).value;
      && was in made && made[was].refs > 0 && Inv(Release(made, was), reps[i := r]) && RepOk(Release(made, was), r)
      && Texts(Release(made, was), reps[i := r]) == Texts(heap, reps)[i := text]
  {
    var was := AddrOf(reps[i]).value;
    assert RepOk(heap, reps[i]);
    ReleaseInv(heap, reps, i, []);
    MadeThenReleased(heap, was, made, a, r, text);
    hide Inv, Made, Release, Texts;
    MakeInv(Release(heap, was), reps[i := Small([])], i, Release(made, was), a, r, text);
    assert reps[i := Small([])][i := r] == reps[i := r];
    assert Texts(heap, reps)[i := []][i := text] == Texts(heap, reps)[i := text];
  }

  /** Making and releasing are about different blocks. */
  lemma MadeThenReleased(heap: Heap, was: nat, made: Heap, a: nat, r: Rep, text: seq<Byte>)
    requires was in heap && heap[was].refs > 0 && Made(heap, made, a, r, text)
    ensures was in made && made[was] == heap[was] && Made(Release(heap, was), Release(made, was), a, r, text)
  {
    var heap1 := Release(heap, was);
    var heap2 := if r.Small? then heap1 else heap1[a := made[a]];
    assert heap2 == Release(made, was);
  }

  lemma ShareInv(heap: Heap, reps: map<nat, Rep>, i: nat, j: nat)
    requires Inv(heap, reps) && Apart(reps, i) && j in reps && reps[j].Large?
    ensures reps[j].addr in heap
    ensures var a := reps[j].addr; var heap' := heap[a := heap[a].(refs := heap[a].refs + 1)];
      && Inv(heap', reps[i := reps[j]])
      && Texts(heap', reps[i := reps[j]]) == Texts(heap, reps)[i := Texts(heap, reps)[j]]
  {
    var a := reps[j].addr;
    assert RepOk(heap, reps[j]);
    var heap' := heap[a := heap[a].(refs := heap[a].refs + 1)];
    forall k | k in reps && k != i ensures Kept(heap, heap', reps[k]) {
      assert RepOk(heap, reps[k]);
    }
    ChangeOne(heap, reps, heap', i, reps[j]);
  }

  /** The only owner of a block may rewrite it, resize it and move it elsewhere. */
  lemma OwnInv(heap: Heap, reps: map<nat, Rep>, i: nat, a: nat, block: Block, r: Rep)
    requires Inv(heap, reps) && i in reps && AddrOf(reps[i]).Some?
    requires AddrOf(reps[i]).value in heap && heap[AddrOf(reps[i]).value].refs == 1
    requires a !in heap || a == AddrOf(reps[i]).value
    requires block.refs == 1 && AddrOf(r) == Some(a) && RepOk((heap - {AddrOf(reps[i]).value})[a := block], r)
    ensures var heap' := (heap - {AddrOf(reps[i]).value})[a := block];
      && Inv(heap', reps[i := r]) && Texts(heap', reps[i := r]) == Texts(heap, reps)[i := Text(heap', r)]
  {
    var was := AddrOf(reps[i]).value;
    var heap' := (heap - {was})[a := block];
    forall j | j in reps && j != i ensures Kept(heap, heap', reps[j]) {
      assert RepOk(heap, reps[j]);
      if AddrOf(reps[j]) == Some(was) {
        OtherOwner(heap, reps, i, j);
      }
    }
    ChangeOne(heap, reps, heap', i, r);
  }

  lemma SwapInv(heap: Heap, reps: map<nat, Rep>, i: nat, j: nat)
    requires Inv(heap, reps) && i in reps && j in reps
    ensures var reps' := reps[i := reps[j]][j := reps[i]];
      && Inv(heap, reps')
      && Texts(heap, reps') == Texts(heap, reps)[i := Texts(heap, reps)[j]][j := Texts(heap, reps)[i]]
  {
    var reps' := reps[i := reps[j]][j := reps[i]];
    forall a | a in heap ensures |Owners(reps', a)| == |Owners(reps, a)| {
      OwnersUpdate(reps, i, reps[j], a);
      OwnersUpdate(reps[i := reps[j]], j, reps[i], a);
    }
  }

  lemma ForgetInv(heap: Heap, reps: map<nat, Rep>, i: nat)
    requires Inv(heap, reps) && i in reps && reps[i].Small?
    ensures Inv(heap, reps - {i}) && Texts(heap, reps - {i}) == Texts(heap, reps) - {i}
  {
    forall a | a in heap ensures Owners(reps - {i}, a) == Owners(reps, a) {
    }
  }

  /** A block exists exactly as long as a string owns it. */
  lemma BlocksAreOwned(heap: Heap, reps: map<nat, Rep>, a: nat)
    requires Inv(heap, reps)
    ensures a in heap <==> exists i :: i in reps && AddrOf(reps[i]) == Some(a)
  {
    if a in heap {
      assert |Owners(reps, a)| > 0;
      var i :| i in Owners(reps, a);
    } else {
      NoOwners(heap, reps, a);
      assert forall i :: i in reps && AddrOf(reps[i]) == Some(a) ==> i in Owners(reps, a);
    }
  }

  lemma NothingLeft(heap: Heap)
    requires Inv(heap, map[])
    ensures heap == map[]
  {
    forall a | a in heap ensures false {
      BlocksAreOwned(heap, map[], a);
    }
  }

  // ----- Storage and representation -----

  predicate CoreIs(c: seq<Byte>, r: Rep) { WellFormed(c) && View(c) == r }

  function MlRep(counted: bool, a: nat, size: nat, capacity: nat): Rep {
    if counted then Large(a, size, capacity) else Medium(a, size, capacity)
  }

  function MlCore(counted: bool, a: nat, size: nat, capacity: nat): seq<Byte> {
    PackMl(a, size, capacity, if counted then IS_LARGE else IS_MEDIUM)
  }

  /** What the accessors answer. */
  lemma CoreShape(c: seq<Byte>, r: Rep)
    requires CoreIs(c, r)
    ensures IsCore(c) && (CategoryOf(c) == IS_SMALL <==> r.Small?) && (CategoryOf(c) == IS_MEDIUM <==> r.Medium?)
    ensures CategoryOf(c) == IS_LARGE <==> r.Large?
    ensures r.Small? ==> SizeOf(c) == |r.text| <= MAX_SMALL && c[..|r.text|] == r.text && c[|r.text|] == 0
    ensures !r.Small? ==> DataWord(c) == r.addr && SizeWord(c) == SizeOf(c) == r.size && CapacityOf(c) == r.capacity
  {
    SizeShortcut(c);
  }

  /** A block that was filled in and given a record. */
  lemma NewBlock(heap: Heap, a: nat, counted: bool, size: nat, capacity: nat, chars: seq<Byte>)
    requires a !in heap && 0 < a < WORD_LIMIT && size <= capacity < CAPACITY_LIMIT
    requires |chars| == capacity + 1 && chars[size] == 0 && (counted ==> capacity > MAX_MEDIUM)
    ensures CoreIs(MlCore(counted, a, size, capacity), MlRep(counted, a, size, capacity))
    ensures Made(heap, heap[a := Block(counted, 1, chars)], a, MlRep(counted, a, size, capacity), chars[..size])
  {
    MlRoundTrip(a, size, capacity, if counted then IS_LARGE else IS_MEDIUM);
  }

  function Max(x: nat, y: nat): nat { if x > y then x else y }

  /** podCopy of the first `n` characters over the front of `to`. */
  function PodCopy(from: seq<Byte>, n: nat, to: seq<Byte>): (r: seq<Byte>)
    requires n <= |from| && n <= |to|
    ensures |r| == |to| && r[..n] == from[..n] && r[n..] == to[n..]
  {
    from[..n] + to[n..]
  }

  function Splice(s: seq<Byte>, k: nat, data: seq<Byte>): (r: seq<Byte>)
    requires k + |data| <= |s|
    ensures |r| == |s|
    ensures forall j :: 0 <= j < |s| ==> r[j] == if k <= j < k + |data| then data[j - k] else s[j]
  {
    s[..k] + data + s[k + |data|..]
  }

  /** Memory from malloc: its contents are not specified. */
  method Malloc(n: nat) returns (chars: seq<Byte>)
    ensures |chars| == n
  {
    chars := seq(n, _ => 0);
  }

  method InitSmall(mem: seq<Byte>, size: nat, aligned: bool, raw: seq<Byte>) returns (c: seq<Byte>)
    requires IsCore(raw) && size <= MAX_SMALL && size <= |mem| && (aligned ==> (size + 7) / 8 * 8 <= |mem|)
    ensures CoreIs(c, Small(mem[..size]))
  {
    c := raw;
    if aligned {
      // whole words, whatever follows the text in memory
      var words := (size + 7) / 8;
      if words == 3 {
        c := c[..16] + mem[16..24];
      }
      if words >= 2 {
        c := c[..8] + mem[8..16] + c[16..];
      }
      if words >= 1 {
        c := mem[..8] + c[8..];
      }
    } else {
      c := mem[..size] + c[size..];
    }
    assert forall k :: 0 <= k < size ==> c[k] == mem[k];
    assert c[..size] == mem[..size];
    SmallRoundTrip(c, size);
    c := SetSmallSize(c, size);
  }

  // ----- Calls, and what they do to plain sequences -----

  /** Strings are named by `i` and `j`; `a` is what malloc answers if it is asked. */
  datatype Op =
    | Making(i: nat, mem: seq<Byte>, size: nat, aligned: bool, raw: seq<Byte>, disableSSO: bool, a: nat)
    | Acquiring(i: nat, chars: seq<Byte>, size: nat, raw: seq<Byte>, a: nat)
    | Copying(i: nat, j: nat, a: nat)
    | Moving(i: nat, j: nat)
    | Swapping(i: nat, j: nat)
    | Destroying(i: nat)
    | Writing(i: nat, k: nat, x: Byte, a: nat)
    | Reserving(i: nat, n: nat, disableSSO: bool, a: nat, inPlace: bool)
    | Appending(i: nat, data: seq<Byte>, expGrowth: bool, disableSSO: bool, a: nat, inPlace: bool)
    | Shrinking(i: nat, delta: nat, a: nat)

  function At(t: map<nat, seq<Byte>>, i: nat): seq<Byte> { if i in t then t[i] else [] }

  /** The value semantics: assignments of sequences to names. */
  function Plain(t: map<nat, seq<Byte>>, op: Op): map<nat, seq<Byte>> {
    match op
    case Making(i, mem, size, _, _, _, _) => if size <= |mem| then t[i := mem[..size]] else t
    case Acquiring(i, chars, size, _, _) => if size <= |chars| then t[i := chars[..size]] else t[i := []]
    case Copying(i, j, _) => t[i := At(t, j)]
    case Moving(i, j) => t[i := At(t, j)][j := []]
    case Swapping(i, j) => t[i := At(t, j)][j := At(t, i)]
    case Destroying(i) => t - {i}
    case Writing(i, k, x, _) => if k < |At(t, i)| then t[i := At(t, i)[k := x]] else t
    case Reserving(_, _, _, _, _) => t
    case Appending(i, data, _, _, _, _) => t[i := At(t, i) + data]
    case Shrinking(i, delta, _) => if delta <= |At(t, i)| then t[i := At(t, i)[..|At(t, i)| - delta]] else t
  }

  function PlainRun(t: map<nat, seq<Byte>>, ops: seq<Op>): map<nat, seq<Byte>> {
    if |ops| == 0 then t else Plain(PlainRun(t, ops[..|ops| - 1]), ops[|ops| - 1])
  }

  class Strings {
    /** goodMallocSize. */
    const good: nat -> nat
    var heap: Heap
    var cores: map<nat, seq<Byte>>
    ghost var reps: map<nat, Rep>

    ghost predicate Valid()
      reads this
    {
      && (forall n: nat :: good(n) >= n)
      && Inv(heap, reps)
      && cores.Keys == reps.Keys && forall i :: i in cores ==> CoreIs(cores[i], reps[i])
    }

    /** The strings as plain sequences. */
    ghost function Contents(): map<nat, seq<Byte>>
      reads this
      requires Valid()
    {
      Texts(heap, reps)
    }

    /** How string `i` is represented. */
    ghost function RepAt(i: nat): Rep
      reads this
    {
      if i in reps then reps[i] else Small([])
    }

    /** The allocator can round up any request of at most `n` bytes. */
    predicate Room(n: nat) { forall m: nat :: m <= n ==> good(m) <= CAPACITY_LIMIT }

    /** `a` is an address malloc may answer. */
    predicate Free(a: nat)
      reads this
    {
      0 < a < WORD_LIMIT && a !in heap
    }

    constructor (good: nat -> nat)
      requires forall n: nat :: good(n) >= n
      ensures Valid() && Contents() == map[] && heap == map[] && cores == map[] && this.good == good
    {
      this.good := good;
      heap := map[];
      cores := map[];
      reps := map[];
    }

    /** RefCounted::create. */
    method CreateCounted(n: nat) returns (capacity: nat, chars: seq<Byte>)
      requires Valid() && Room(n + 9)
      ensures n <= capacity < CAPACITY_LIMIT && |chars| == capacity + 1
    {
      var allocSize := good(8 + (n + 1));
      capacity := allocSize - 8 - 1;
      chars := Malloc(capacity + 1);
    }

    /** The constructor from characters: small, medium or large by size. */
    method Init(mem: seq<Byte>, size: nat, aligned: bool, raw: seq<Byte>, disableSSO: bool, a: nat)
      returns (c: seq<Byte>, ghost r: Rep)
      requires Valid() && Free(a) && Room(size + 9)
      requires IsCore(raw) && size <= |mem| && (aligned && size <= MAX_SMALL ==> (size + 7) / 8 * 8 <= |mem|)
      modifies this`heap
      ensures CoreIs(c, r) && Made(old(heap), heap, a, r, mem[..size])
      ensures (r.Small? <==> !disableSSO && size <= MAX_SMALL) && (r.Large? <==> size > MAX_MEDIUM)
    {
      hide Inv, CoreIs, Made;
      if !disableSSO && size <= MAX_SMALL {
        c := InitSmall(mem, size, aligned, raw);
        r := Small(mem[..size]);
        MadeSmall(heap, a, mem[..size]);
      } else if size <= MAX_MEDIUM {
        var allocSize := good(1 + size);
        var chars := Malloc(allocSize);
        chars := PodCopy(mem, size, chars)[size := 0];
        NewBlock(heap, a, false, size, allocSize - 1, chars);
        heap := heap[a := Block(false, 1, chars)];
        c, r := MlCore(false, a, size, allocSize - 1), MlRep(false, a, size, allocSize - 1);
        assert chars[..size] == mem[..size];
      } else {
        var capacity, chars := CreateCounted(size);
        chars := PodCopy(mem, size, chars)[size := 0];
        NewBlock(heap, a, true, size, capacity, chars);
        heap := heap[a := Block(true, 1, chars)];
        c, r := MlCore(true, a, size, capacity), MlRep(true, a, size, capacity);
        assert chars[..size] == mem[..size];
      }
    }

    method Create(i: nat, mem: seq<Byte>, size: nat, aligned: bool, raw: seq<Byte>, disableSSO: bool, a: nat)
      requires Valid() && i !in cores && Free(a) && Room(size + 9)
      requires IsCore(raw) && size <= |mem| && (aligned && size <= MAX_SMALL ==> (size + 7) / 8 * 8 <= |mem|)
      modifies this
      ensures Valid() && Contents() == old(Contents())[i := mem[..size]]
      ensures (RepAt(i).Small? <==> !disableSSO && size <= MAX_SMALL) && (RepAt(i).Large? <==> size > MAX_MEDIUM)
      ensures RepAt(i).Small? ==> heap == old(heap)
    {
      hide Inv, CoreIs;
      ghost var was := heap;
      var c: seq<Byte>;
      ghost var r: Rep;
      c, r := Init(mem, size, aligned, raw, disableSSO, a);
      MakeInv(was, reps, i, heap, a, r, mem[..size]);
      cores := cores[i := c];
      reps := reps[i := r];
    }

    /** The constructor that takes over a block from malloc, terminator included. */
    method Acquire(i: nat, chars: seq<Byte>, size: nat, raw: seq<Byte>, a: nat)
      requires Valid() && i !in cores && Free(a) && IsCore(raw) && |chars| <= CAPACITY_LIMIT
      requires size > 0 ==> |chars| >= size + 1 && chars[size] == 0
      modifies this
      ensures Valid() && Contents() == old(Contents())[i := if size > 0 then chars[..size] else []]
      ensures a in heap <==> size > 0
      ensures size > 0 ==> RepAt(i) == Medium(a, size, |chars| - 1)
    {
      hide Inv, CoreIs, Made;
      if size > 0 {
        var capacity := |chars| - 1;
        NewBlock(heap, a, false, size, capacity, chars);
        MakeInv(heap, reps, i, heap[a := Block(false, 1, chars)], a, MlRep(false, a, size, capacity), chars[..size]);
        heap := heap[a := Block(false, 1, chars)];
        cores := cores[i := MlCore(false, a, size, capacity)];
        reps := reps[i := MlRep(false, a, size, capacity)];
      } else {
        SmallRoundTrip(raw, 0);
        EmptyCore(raw);
        MadeSmall(heap, a, []);
        MakeInv(heap, reps, i, heap, a, Small([]), []);
        cores := cores[i := SetSmallSize(raw, 0)];
        reps := reps[i := Small([])];
      }
    }

    method CopyMedium(i: nat, j: nat, a: nat)
      requires Valid() && i !in cores && j in cores && reps[j].Medium? && Free(a) && Room(|Contents()[j]| + 9)
      modifies this
      ensures Valid() && Contents() == old(Contents())[i := old(Contents())[j]]
      ensures RepAt(i).Medium? && RepAt(i).addr == a
    {
      hide Inv, CoreIs, Made;
      var c := cores[j];
      CoreShape(c, reps[j]);
      StringOk(heap, reps, j);
      var n := SizeWord(c);
      var allocSize := good(1 + n);
      var chars := Malloc(allocSize);
      CopiesTerminator(heap[DataWord(c)].chars, n, chars);
      chars := PodCopy(heap[DataWord(c)].chars, n + 1, chars);
      NewBlock(heap, a, false, n, allocSize - 1, chars);
      MakeInv(heap, reps, i, heap[a := Block(false, 1, chars)], a, MlRep(false, a, n, allocSize - 1), chars[..n]);
      heap := heap[a := Block(false, 1, chars)];
      cores := cores[i := MlCore(false, a, n, allocSize - 1)];
      reps := reps[i := MlRep(false, a, n, allocSize - 1)];
    }

    /** The copy constructor: small and medium strings are copied, large ones shared. */
    method Copy(i: nat, j: nat, a: nat)
      requires Valid() && i !in cores && j in cores && Free(a) && Room(|Contents()[j]| + 9)
      modifies this
      ensures Valid() && Contents() == old(Contents())[i := old(Contents())[j]]
      ensures old(RepAt(j)).Small? ==> heap == old(heap)
      ensures old(RepAt(j)).Medium? ==> RepAt(i).Medium? && RepAt(i).addr == a
      ensures old(RepAt(j)).Large? ==> RepAt(i) == old(RepAt(j)) && SharedOnce(old(heap), heap, RepAt(i).addr)
    {
      hide Inv, CoreIs, Made;
      var c := cores[j];
      CoreShape(c, reps[j]);
      StringOk(heap, reps, j);
      if CategoryOf(c) == IS_SMALL {
        MadeSmall(heap, a, reps[j].text);
        MakeInv(heap, reps, i, heap, a, reps[j], reps[j].text);
        cores := cores[i := c];
        reps := reps[i := reps[j]];
      } else if CategoryOf(c) == IS_MEDIUM {
        CopyMedium(i, j, a);
      } else {
        ShareInv(heap, reps, i, j);
        var d := DataWord(c);
        cores := cores[i := c];
        reps := reps[i := reps[j]];
        heap := heap[d := heap[d].(refs := heap[d].refs + 1)];
      }
    }

    method Move(i: nat, j: nat)
      requires Valid() && i !in cores && j in cores
      modifies this
      ensures Valid() && Contents() == old(Contents())[i := old(Contents())[j]][j := []]
      ensures heap == old(heap) && RepAt(i) == old(RepAt(j))
    {
      hide Inv, CoreIs, Made;
      CoreShape(cores[j], reps[j]);
      EmptyCore(cores[j]);
      MadeSmall(heap, 0, []);
      MakeInv(heap, reps, i, heap, 0, Small([]), []);
      SwapInv(heap, reps[i := Small([])], i, j);
      cores := cores[i := cores[j]];
      cores := cores[j := SetSmallSize(cores[j], 0)];
      reps := reps[i := Small([])][i := reps[j]][j := Small([])];
    }

    method Swap(i: nat, j: nat)
      requires Valid() && i in cores && j in cores
      modifies this
      ensures Valid() && Contents() == old(Contents())[i := old(Contents())[j]][j := old(Contents())[i]]
      ensures heap == old(heap) && RepAt(i) == old(RepAt(j)) && RepAt(j) == old(RepAt(i))
    {
      hide Inv, CoreIs;
      SwapInv(heap, reps, i, j);
      var t := cores[i];
      ghost var r := reps[i];
      cores := cores[i := cores[j]];
      cores := cores[j := t];
      reps := reps[i := reps[j]][j := r];
    }

    /** The destructor. */
    method Destroy(i: nat)
      requires Valid() && i in cores
      modifies this
      ensures Valid() && Contents() == old(Contents()) - {i}
      ensures if old(RepAt(i)).Small? then heap == old(heap) else Released(old(heap), heap, old(RepAt(i)).addr)
    {
      hide Inv, CoreIs;
      CoreShape(cores[i], reps[i]);
      if CategoryOf(cores[i]) == IS_SMALL {
        ForgetInv(heap, reps, i);
      } else {
        ReleaseInv(heap, reps, i, []);
        ForgetInv(Release(heap, reps[i].addr), reps[i := Small([])], i);
        assert reps[i := Small([])] - {i} == reps - {i};
        heap := Release(heap, DataWord(cores[i]));
      }
      cores := cores - {i};
      reps := reps - {i};
    }

    /** Small, or the only owner of its block. */
    ghost predicate Sole(i: nat)
      reads this
    {
      i in reps && (reps[i].Small? || (reps[i].addr in heap && heap[reps[i].addr].refs == 1))
    }

    method Unshare(i: nat, minCapacity: nat, a: nat)
      requires Valid() && i in cores && reps[i].Large? && Free(a)
      requires Room(minCapacity + 9) && Room(reps[i].capacity + 9)
      modifies this
      ensures Valid() && Contents() == old(Contents()) && Sole(i) && cores.Keys == old(cores.Keys)
      ensures reps[i].Large? && reps[i].size == old(reps[i].size) && reps[i].addr == a
      ensures reps[i].capacity >= minCapacity && reps[i].capacity >= old(reps[i].capacity)
      ensures a in heap && Released(old(heap)[a := heap[a]], heap, old(reps[i].addr))
    {
      hide Inv, CoreIs, Made;
      var c := cores[i];
      CoreShape(c, reps[i]);
      StringOk(heap, reps, i);
      var was, n := DataWord(c), SizeWord(c);
      var effectiveCapacity, chars := CreateCounted(if minCapacity > CapacityOf(c) then minCapacity else CapacityOf(c));
      CopiesTerminator(heap[was].chars, n, chars);
      chars := PodCopy(heap[was].chars, n + 1, chars);
      NewBlock(heap, a, true, n, effectiveCapacity, chars);
      ReplaceInv(heap, reps, i, heap[a := Block(true, 1, chars)], a, MlRep(true, a, n, effectiveCapacity), chars[..n]);
      heap := heap[a := Block(true, 1, chars)];
      heap := Release(heap, was);
      cores := cores[i := MlCore(true, a, n, effectiveCapacity)];
      reps := reps[i := MlRep(true, a, n, effectiveCapacity)];
    }

    /** mutableData: what it points to may be written without any other string noticing. */
    method MutableData(i: nat, a: nat)
      requires Valid() && i in cores && Free(a) && (reps[i].Large? ==> Room(reps[i].capacity + 9))
      modifies this
      ensures Valid() && Contents() == old(Contents()) && Sole(i) && cores.Keys == old(cores.Keys)
      ensures old(Sole(i)) ==> heap == old(heap) && reps == old(reps)
    {
      hide Inv, CoreIs;
      CoreShape(cores[i], reps[i]);
      StringOk(heap, reps, i);
      if CategoryOf(cores[i]) == IS_LARGE && heap[DataWord(cores[i])].refs > 1 {
        Unshare(i, 0, a);
      }
    }

    /** Characters stored through the pointer of a string that owns its data alone. */
    method Store(i: nat, k: nat, data: seq<Byte>)
      requires Valid() && i in cores && Sole(i) && k + |data| <= |Contents()[i]|
      modifies this
      ensures Valid() && Contents() == old(Contents())[i := Splice(old(Contents())[i], k, data)]
      ensures cores.Keys == old(cores.Keys)
    {
      hide Inv, CoreIs, Made, Splice;
      var c := cores[i];
      CoreShape(c, reps[i]);
      StringOk(heap, reps, i);
      if CategoryOf(c) == IS_SMALL {
        ghost var text := Splice(reps[i].text, k, data);
        SmallSplice(c, reps[i].text, k, data);
        MadeSmall(heap, 0, text);
        MakeInv(heap, reps, i, heap, 0, Small(text), text);
        cores := cores[i := Splice(c, k, data)];
        reps := reps[i := Small(text)];
      } else {
        var d := DataWord(c);
        var block := heap[d].(chars := Splice(heap[d].chars, k, data));
        BlockSplice(heap, reps[i], k, data);
        OwnInv(heap, reps, i, d, block, reps[i]);
        assert (heap - {d})[d := block] == heap[d := block] && reps[i := reps[i]] == reps;
        heap := heap[d := block];
      }
    }

    /** A character written through mutableData. */
    method Write(i: nat, k: nat, x: Byte, a: nat)
      requires Valid() && i in cores && k < |Contents()[i]| && Free(a)
      requires reps[i].Large? ==> Room(reps[i].capacity + 9)
      modifies this
      ensures Valid()
      ensures var text: seq<Byte> := old(Contents())[i][k := x]; Contents() == old(Contents())[i := text]
      ensures cores.Keys == old(cores.Keys)
    {
      hide Inv, CoreIs;
      MutableData(i, a);
      Store(i, k, [x]);
      assert Splice(old(Contents())[i], k, [x]) == old(Contents())[i][k := x];
    }

    /** smartRealloc of a block with one owner: the first `n` + 1 characters survive. */
    method Reallocate(i: nat, capacity: nat, a: nat)
      requires Valid() && i in cores && !reps[i].Small? && Sole(i)
      requires reps[i].capacity < capacity < CAPACITY_LIMIT && (a == reps[i].addr || Free(a))
      modifies this
      ensures Valid() && Contents() == old(Contents()) && cores.Keys == old(cores.Keys)
      ensures reps[i] == MlRep(old(reps[i].Large?), a, old(reps[i].size), capacity) && Sole(i)
    {
      hide Inv, CoreIs, Made;
      var c := cores[i];
      CoreShape(c, reps[i]);
      StringOk(heap, reps, i);
      var d, n, counted := DataWord(c), SizeWord(c), CategoryOf(c) == IS_LARGE;
      var chars := Malloc(capacity + 1);
      CopiesTerminator(heap[d].chars, n, chars);
      chars := PodCopy(heap[d].chars, n + 1, chars);
      ghost var r := MlRep(counted, a, n, capacity);
      RecordIs(counted, a, n, capacity);
      OwnInv(heap, reps, i, a, Block(counted, 1, chars), r);
      heap := (heap - {d})[a := Block(counted, 1, chars)];
      cores := cores[i := MlCore(counted, a, n, capacity)];
      reps := reps[i := r];
    }

    /** From a small string to a block of its own. The copy of the text does not look at
        the request; `ok` is false, and nothing is done, exactly where it would go past the
        block that was allocated for the request. */
    method ReserveSmall(i: nat, minCapacity: nat, disableSSO: bool, a: nat) returns (ok: bool)
      requires Valid() && i in cores && reps[i].Small? && Free(a) && Room(minCapacity + 9)
      modifies this
      ensures Valid() && Contents() == old(Contents()) && cores.Keys == old(cores.Keys) && Sole(i)
      ensures ok <==> (disableSSO ==> |old(Contents())[i]| < good(1 + minCapacity))
      ensures ok && (disableSSO || minCapacity > MAX_SMALL) ==>
        !reps[i].Small? && reps[i].size == |Contents()[i]| && reps[i].capacity >= minCapacity
      ensures !ok || (!disableSSO && minCapacity <= MAX_SMALL) ==>
        heap == old(heap) && reps == old(reps) && cores == old(cores)
    {
      hide Inv, CoreIs, Made;
      if !disableSSO && minCapacity <= MAX_SMALL {
        return true;
      }
      var c := cores[i];
      CoreShape(c, reps[i]);
      StringOk(heap, reps, i);
      var n := SizeOf(c);
      var counted := minCapacity > MAX_MEDIUM;
      var capacity, chars;
      if counted {
        capacity, chars := CreateCounted(minCapacity);
      } else {
        capacity := good(1 + minCapacity) - 1;
        chars := Malloc(capacity + 1);
      }
      if n + 1 > |chars| {
        return false;
      }
      CopiesTerminator(c, n, chars);
      chars := PodCopy(c, n + 1, chars);
      NewBlock(heap, a, counted, n, capacity, chars);
      MakeInv(heap, reps, i, heap[a := Block(counted, 1, chars)], a, MlRep(counted, a, n, capacity), chars[..n]);
      assert Contents()[i := chars[..n]] == Contents();
      heap := heap[a := Block(counted, 1, chars)];
      cores := cores[i := MlCore(counted, a, n, capacity)];
      reps := reps[i := MlRep(counted, a, n, capacity)];
      return true;
    }

    method ReserveMedium(i: nat, minCapacity: nat, a: nat, inPlace: bool)
      requires Valid() && i in cores && reps[i].Medium? && Free(a) && Room(minCapacity + 9)
      modifies this
      ensures Valid() && Contents() == old(Contents()) && cores.Keys == old(cores.Keys) && Sole(i)
      ensures !reps[i].Small? && reps[i].size == old(reps[i].size) && reps[i].capacity >= minCapacity
      ensures reps[i].capacity >= old(reps[i].capacity)
    {
      hide Inv, CoreIs, Made;
      var c := cores[i];
      CoreShape(c, reps[i]);
      StringOk(heap, reps, i);
      var d, n := DataWord(c), SizeWord(c);
      if minCapacity <= CapacityOf(c) {
        return;
      }
      if minCapacity <= MAX_MEDIUM {
        Reallocate(i, good(1 + minCapacity) - 1, if inPlace then d else a);
      } else {
        // a nascent large string, filled and swapped in; the old block goes with it
        var capacity, chars := CreateCounted(minCapacity);
        CopiesTerminator(heap[d].chars, n, chars);
        chars := PodCopy(heap[d].chars, n + 1, chars);
        NewBlock(heap, a, true, n, capacity, chars);
        ReplaceInv(heap, reps, i, heap[a := Block(true, 1, chars)], a, MlRep(true, a, n, capacity), chars[..n]);
        assert Contents()[i := chars[..n]] == Contents();
        heap := heap[a := Block(true, 1, chars)];
        heap := Release(heap, d);
        cores := cores[i := MlCore(true, a, n, capacity)];
        reps := reps[i := MlRep(true, a, n, capacity)];
      }
    }

    method ReserveLarge(i: nat, minCapacity: nat, a: nat, inPlace: bool)
      requires Valid() && i in cores && reps[i].Large? && Free(a)
      requires Room(minCapacity + 9) && Room(reps[i].capacity + 9)
      modifies this
      ensures Valid() && Contents() == old(Contents()) && cores.Keys == old(cores.Keys) && Sole(i)
      ensures !reps[i].Small? && reps[i].size == old(reps[i].size) && reps[i].capacity >= minCapacity
      ensures reps[i].capacity >= old(reps[i].capacity)
    {
      hide Inv, CoreIs;
      var c := cores[i];
      CoreShape(c, reps[i]);
      StringOk(heap, reps, i);
      if heap[DataWord(c)].refs > 1 {
        Unshare(i, minCapacity, a);
      } else if minCapacity > CapacityOf(c) {
        Reallocate(i, good(8 + (minCapacity + 1)) - 8 - 1, if inPlace then DataWord(c) else a);
      }
    }

    /** Room for `minCapacity` characters, and the text stays what it was; `ok` as in
        `ReserveSmall`. */
    method Reserve(i: nat, minCapacity: nat, disableSSO: bool, a: nat, inPlace: bool) returns (ok: bool)
      requires Valid() && i in cores && Free(a) && Room(minCapacity + 9)
      requires reps[i].Large? ==> Room(reps[i].capacity + 9)
      modifies this
      ensures Valid() && Contents() == old(Contents()) && cores.Keys == old(cores.Keys)
      ensures ok <==> (old(reps[i].Small?) && disableSSO ==> |old(Contents())[i]| < good(1 + minCapacity))
      ensures ok ==> Sole(i) && (if reps[i].Small? then MAX_SMALL else reps[i].capacity) >= minCapacity
      ensures !ok ==> heap == old(heap) && reps == old(reps) && cores == old(cores)
      ensures !old(reps[i].Small?) ==> !reps[i].Small? && reps[i].size == old(reps[i].size)
    {
      hide Inv, CoreIs;
      CoreShape(cores[i], reps[i]);
      if CategoryOf(cores[i]) == IS_SMALL {
        ok := ReserveSmall(i, minCapacity, disableSSO, a);
      } else if CategoryOf(cores[i]) == IS_MEDIUM {
        ReserveMedium(i, minCapacity, a, inPlace);
        ok := true;
      } else {
        ReserveLarge(i, minCapacity, a, inPlace);
        ok := true;
      }
    }

    /** size(), by the shortcut. */
    function Size(i: nat): (n: nat)
      reads this
      requires Valid() && i in cores
      ensures n == |Contents()[i]|
    {
      CoreShape(cores[i], reps[i]);
      StringOk(heap, reps, i);
      SizeOf(cores[i])
    }

    /** capacity(): a shared block has no room to spare. */
    function Capacity(i: nat): (n: nat)
      reads this
      requires Valid() && i in cores
      ensures |Contents()[i]| <= n && (|Contents()[i]| < n ==> Sole(i))
      ensures reps[i].Small? ==> n == MAX_SMALL
      ensures !reps[i].Small? ==> n == if Sole(i) then reps[i].capacity else reps[i].size
    {
      CoreShape(cores[i], reps[i]);
      StringOk(heap, reps, i);
      var c := cores[i];
      if CategoryOf(c) == IS_SMALL then MAX_SMALL
      else if CategoryOf(c) == IS_LARGE && heap[DataWord(c)].refs > 1 then SizeWord(c)
      else CapacityOf(c)
    }

    /** The new size and the terminator behind it, in the block. A shared block is only
        ever written where it holds a terminator already. */
    method SetSize(i: nat, n: nat)
      requires Valid() && i in cores && !reps[i].Small? && n <= reps[i].capacity
      requires Sole(i) || n == reps[i].size
      modifies this
      ensures Valid() && cores.Keys == old(cores.Keys) && (old(Sole(i)) ==> Sole(i))
      ensures Contents() == old(Contents())[i := old(heap)[old(reps[i].addr)].chars[..n]]
      ensures RepAt(i) == MlRep(old(reps[i].Large?), old(reps[i].addr), n, old(reps[i].capacity))
      ensures heap.Keys == old(heap.Keys)
    {
      hide Inv, CoreIs, Made;
      var c := cores[i];
      CoreShape(c, reps[i]);
      StringOk(heap, reps, i);
      var d, counted := DataWord(c), CategoryOf(c) == IS_LARGE;
      var block := heap[d].(chars := heap[d].chars[n := 0]);
      if heap[d].refs == 1 {
        SizeChanged(heap, reps[i], n);
        OwnInv(heap, reps, i, d, block, MlRep(counted, d, n, CapacityOf(c)));
        assert (heap - {d})[d := block] == heap[d := block];
      } else {
        assert block == heap[d];
        assert heap[d := block] == heap;
        assert reps[i := MlRep(counted, d, n, CapacityOf(c))] == reps;
        assert Contents()[i := heap[d].chars[..n]] == Contents();
      }
      RecordIs(counted, d, n, CapacityOf(c));
      heap := heap[d := block];
      cores := cores[i := MlCore(counted, d, n, CapacityOf(c))];
      reps := reps[i := MlRep(counted, d, n, CapacityOf(c))];
    }

    /** The most that expandNoinit asks for. */
    function Growth(i: nat, delta: nat): (n: nat)
      reads this
      requires Valid() && i in cores
      ensures n >= Size(i) + delta && n >= 2 * MAX_SMALL && n >= 1 + Capacity(i) * 3 / 2
      ensures !reps[i].Small? ==> n >= reps[i].capacity
    {
      CoreShape(cores[i], reps[i]);
      StringOk(heap, reps, i);
      var held := if CategoryOf(cores[i]) == IS_SMALL then 2 * MAX_SMALL else CapacityOf(cores[i]);
      Max(Max(Size(i) + delta, 2 * MAX_SMALL), Max(1 + Capacity(i) * 3 / 2, held))
    }

    /** The last step of expandNoinit. */
    method Grow(i: nat, n: nat)
      requires Valid() && i in cores && !reps[i].Small? && reps[i].size <= n <= reps[i].capacity
      requires Sole(i) || n == reps[i].size
      modifies this
      ensures Valid() && cores.Keys == old(cores.Keys) && (n > old(reps[i].size) ==> Sole(i))
      ensures |Contents()[i]| == n && Contents()[i][..old(reps[i].size)] == old(Contents())[i]
      ensures Contents() == old(Contents())[i := Contents()[i]]
      ensures !RepAt(i).Small? && RepAt(i).addr == old(reps[i].addr) && RepAt(i).capacity == old(reps[i].capacity)
    {
      hide Inv, CoreIs;
      StringOk(heap, reps, i);
      SetSize(i, n);
      assert old(heap)[old(reps[i].addr)].chars[..n][..old(reps[i].size)] == old(Contents())[i];
    }

    /** Make room, then change the size: `delta` characters not yet written. */
    method ExpandNoinit(i: nat, delta: nat, expGrowth: bool, disableSSO: bool, a: nat, inPlace: bool)
      returns (offset: nat)
      requires Valid() && i in cores && Free(a) && Room(Growth(i, delta) + 9)
      modifies this
      ensures Valid() && cores.Keys == old(cores.Keys) && (delta > 0 ==> Sole(i))
      ensures offset == |old(Contents())[i]| && |Contents()[i]| == offset + delta
      ensures Contents()[i][..offset] == old(Contents())[i]
      ensures Contents() == old(Contents())[i := Contents()[i]]
      ensures !old(RepAt(i)).Small? && offset + delta > old(Capacity(i)) && expGrowth ==>
        !RepAt(i).Small? && RepAt(i).capacity >= 1 + old(Capacity(i)) * 3 / 2
      ensures !old(RepAt(i)).Small? && offset + delta <= old(Capacity(i)) ==>
        !RepAt(i).Small? && RepAt(i).addr == old(RepAt(i)).addr
    {
      hide Inv, CoreIs, Made, Growth;
      var c := cores[i];
      CoreShape(c, reps[i]);
      StringOk(heap, reps, i);
      offset := Size(i);
      var newSz := offset + delta;
      if CategoryOf(c) == IS_SMALL {
        if !disableSSO && newSz <= MAX_SMALL {
          SmallIs(c, newSz);
          MadeSmall(heap, a, c[..newSz]);
          MakeInv(heap, reps, i, heap, a, Small(c[..newSz]), c[..newSz]);
          assert c[..newSz][..offset] == c[..offset];
          cores := cores[i := SetSmallSize(c, newSz)];
          reps := reps[i := Small(c[..newSz])];
          return;
        }
        var least := if expGrowth && newSz < 2 * MAX_SMALL then 2 * MAX_SMALL else newSz;
        var ok := ReserveSmall(i, least, disableSSO, a);
        assert ok;
      } else if newSz > Capacity(i) {
        var grown := 1 + Capacity(i) * 3 / 2;
        var ok := Reserve(i, if expGrowth && newSz < grown then grown else newSz, false, a, inPlace);
        assert ok;
      }
      Grow(i, newSz);
    }

    /** append and push_back: expand, then fill in what was made room for. */
    method Append(i: nat, data: seq<Byte>, expGrowth: bool, disableSSO: bool, a: nat, inPlace: bool)
      requires Valid() && i in cores && Free(a) && Room(Growth(i, |data|) + 9)
      modifies this
      ensures Valid() && Contents() == old(Contents())[i := old(Contents())[i] + data]
      ensures cores.Keys == old(cores.Keys)
    {
      hide Inv, CoreIs, Growth;
      var offset := ExpandNoinit(i, |data|, expGrowth, disableSSO, a, inPlace);
      ghost var grown := Contents()[i];
      if |data| > 0 {
        Store(i, offset, data);
      }
      assert Splice(grown, offset, data) == old(Contents())[i] + data;
      assert |data| == 0 ==> grown == old(Contents())[i] + data;
    }

    method ShrinkLarge(i: nat, delta: nat, a: nat)
      requires Valid() && i in cores && reps[i].Large? && delta <= |Contents()[i]| && Free(a)
      requires Room(|Contents()[i]| + 9)
      modifies this
      ensures Valid() && cores.Keys == old(cores.Keys)
      ensures Contents() == old(Contents())[i := old(Contents())[i][..|old(Contents())[i]| - delta]]
    {
      hide Inv, CoreIs, Made;
      var c := cores[i];
      CoreShape(c, reps[i]);
      StringOk(heap, reps, i);
      var d, n := DataWord(c), SizeWord(c) - delta;
      assert heap[d].chars[..n] == Contents()[i][..n];
      if delta == 0 {
        assert Contents()[i][..n] == Contents()[i];
        assert Contents()[i := Contents()[i][..n]] == Contents();
        return;
      }
      // a temporary with the shorter text, swapped in and destroyed with the old block
      ghost var was := heap;
      var raw := Malloc(24);
      var shorter: seq<Byte>;
      ghost var r: Rep;
      shorter, r := Init(heap[d].chars, n, true, raw, false, a);
      ReplaceInv(was, reps, i, heap, a, r, was[d].chars[..n]);
      heap := Release(heap, d);
      cores := cores[i := shorter];
      reps := reps[i := r];
    }

    method Shrink(i: nat, delta: nat, a: nat)
      requires Valid() && i in cores && delta <= |Contents()[i]| && Free(a) && Room(|Contents()[i]| + 9)
      modifies this
      ensures Valid() && cores.Keys == old(cores.Keys)
      ensures Contents() == old(Contents())[i := old(Contents())[i][..|old(Contents())[i]| - delta]]
      ensures old(Sole(i)) ==> heap.Keys == old(heap.Keys)
    {
      hide Inv, CoreIs, Made;
      var c := cores[i];
      CoreShape(c, reps[i]);
      StringOk(heap, reps, i);
      var n := Size(i) - delta;
      if CategoryOf(c) == IS_SMALL {
        SmallIs(c, n);
        MadeSmall(heap, a, c[..n]);
        MakeInv(heap, reps, i, heap, a, Small(c[..n]), c[..n]);
        assert c[..n] == Contents()[i][..n];
        cores := cores[i := SetSmallSize(c, n)];
        reps := reps[i := Small(c[..n])];
      } else if CategoryOf(c) == IS_MEDIUM || heap[DataWord(c)].refs == 1 {
        assert heap[DataWord(c)].chars[..n] == Contents()[i][..n];
        SetSize(i, n);
      } else {
        ShrinkLarge(i, delta, a);
      }
    }

    /** c_str(): the text and the terminator behind it. */
    function CStr(i: nat): (s: seq<Byte>)
      reads this
      requires Valid() && i in cores
      ensures s == Contents()[i] + [0]
    {
      CoreShape(cores[i], reps[i]);
      StringOk(heap, reps, i);
      Terminated(heap, cores[i], reps[i]);
      if CategoryOf(cores[i]) == IS_SMALL then cores[i][..SizeOf(cores[i]) + 1]
      else heap[DataWord(cores[i])].chars[..SizeOf(cores[i]) + 1]
    }

    /** The string lives in its object. */
    predicate IsSmall(i: nat)
      reads this
      requires Valid() && i in cores
      ensures IsSmall(i) <==> reps[i].Small?
    {
      CoreShape(cores[i], reps[i]);
      CategoryOf(cores[i]) == IS_SMALL
    }

    /** The call is one the source allows, and the allocator can serve it. */
    predicate Legal(op: Op)
      reads this
      requires Valid()
    {
      match op
      case Making(i, mem, size, aligned, raw, disableSSO, a) =>
        && i !in cores && Free(a) && Room(size + 9) && IsCore(raw) && size <= |mem|
        && (aligned && size <= MAX_SMALL ==> (size + 7) / 8 * 8 <= |mem|)
      case Acquiring(i, chars, size, raw, a) =>
        && i !in cores && Free(a) && IsCore(raw) && |chars| <= CAPACITY_LIMIT
        && (size > 0 ==> |chars| >= size + 1 && chars[size] == 0)
      case Copying(i, j, a) => i !in cores && j in cores && Free(a) && Room(Size(j) + 9)
      case Moving(i, j) => i !in cores && j in cores
      case Swapping(i, j) => i in cores && j in cores
      case Destroying(i) => i in cores
      case Writing(i, k, _, a) => i in cores && k < Size(i) && Free(a) && Room(Growth(i, 0) + 9)
      case Reserving(i, n, disableSSO, a, _) =>
        && i in cores && Free(a) && Room(n + 9) && Room(Growth(i, 0) + 9)
        && (IsSmall(i) && disableSSO ==> Size(i) < good(1 + n))
      case Appending(i, data, _, _, a, _) => i in cores && Free(a) && Room(Growth(i, |data|) + 9)
      case Shrinking(i, delta, a) => i in cores && delta <= Size(i) && Free(a) && Room(Size(i) + 9)
    }

    /** Any one operation does to the strings what it does to plain sequences. */
    method Step(op: Op)
      requires Valid() && Legal(op)
      modifies this
      ensures Valid() && Contents() == Plain(old(Contents()), op)
    {
      hide Inv, CoreIs, Growth;
      match op
      case Making(i, mem, size, aligned, raw, disableSSO, a) => Create(i, mem, size, aligned, raw, disableSSO, a);
      case Acquiring(i, chars, size, raw, a) => Acquire(i, chars, size, raw, a);
      case Copying(i, j, a) => Copy(i, j, a);
      case Moving(i, j) => Move(i, j);
      case Swapping(i, j) => Swap(i, j);
      case Destroying(i) => Destroy(i);
      case Writing(i, k, x, a) => Write(i, k, x, a);
      case Reserving(i, n, disableSSO, a, inPlace) =>
        var ok := Reserve(i, n, disableSSO, a, inPlace);
        assert ok;
      case Appending(i, data, expGrowth, disableSSO, a, inPlace) => Append(i, data, expGrowth, disableSSO, a, inPlace);
      case Shrinking(i, delta, a) => Shrink(i, delta, a);
    }

    /** Any run, up to the first call that is not allowed: sharing never shows, and
        when the last string is gone so is the last block. */
    method Run(ops: seq<Op>) returns (n: nat)
      requires Valid()
      modifies this
      ensures Valid() && n <= |ops| && Contents() == PlainRun(old(Contents()), ops[..n])
      ensures n < |ops| ==> !Legal(ops[n])
      ensures Contents() == map[] ==> heap == map[]
    {
      hide Inv, CoreIs, Legal, Plain;
      n := 0;
      while n < |ops| && Legal(ops[n])
        invariant Valid() && n <= |ops| && Contents() == PlainRun(old(Contents()), ops[..n])
      {
        assert ops[..n + 1][..n] == ops[..n];
        Step(ops[n]);
        n := n + 1;
      }
      if Contents() == map[] {
        NoStrings(heap, reps);
      }
    }
  }

  /** An allocator that answers at least what was asked for has room for the copy. */
  ghost predicate Serves(good: nat -> nat, size: nat, minCapacity: nat) {
    (forall n: nat :: good(n) >= n) ==> size < good(1 + minCapacity)
  }

  /** What a caller can rely on whatever the allocator rounds to: a request of at least the
      size, and no less. */
  lemma ServedByEveryAllocator(size: nat, minCapacity: nat)
    ensures (forall good: nat -> nat :: Serves(good, size, minCapacity)) <==> size <= minCapacity
  {
    if forall good: nat -> nat :: Serves(good, size, minCapacity) {
      assert Serves(n => n, size, minCapacity);
    }
  }

  /** A call that goes past its block: two characters, nothing asked for, and an allocator
      that does not round. */
  method ReserveOverruns() returns (ok: bool)
    ensures !ok
  {
    hide Inv, CoreIs;
    var raw: seq<Byte> := seq(24, _ => 0);
    var s := new Strings(n => n);
    var two: seq<Byte> := [1, 2];
    s.Create(0, two, 2, false, raw, false, 1);
    assert two[..2] == two;
    ok := s.Reserve(0, 0, true, 1, false);
  }

  /** One more owner of block `a`, and nothing else. */
  predicate SharedOnce(heap: Heap, heap': Heap, a: nat) {
    a in heap && heap' == heap[a := heap[a].(refs := heap[a].refs + 1)]
  }

  /** One owner of block `a` less, and the block gone with the last one. */
  predicate Released(heap: Heap, heap': Heap, a: nat) {
    a in heap && heap[a].refs > 0 && heap' == Release(heap, a)
  }

  lemma MadeSmall(heap: Heap, a: nat, text: seq<Byte>)
    requires |text| <= MAX_SMALL
    ensures Made(heap, heap, a, Small(text), text)
  {
  }

  lemma EmptyCore(c: seq<Byte>)
    requires IsCore(c)
    ensures CoreIs(SetSmallSize(c, 0), Small([]))
  {
    SmallRoundTrip(c, 0);
  }

  lemma StringOk(heap: Heap, reps: map<nat, Rep>, i: nat)
    requires Inv(heap, reps) && i in reps
    ensures RepOk(heap, reps[i]) && Texts(heap, reps)[i] == Text(heap, reps[i])
    ensures !reps[i].Small? ==> heap[reps[i].addr].refs > 0
  {
  }

  lemma CopiesTerminator(from: seq<Byte>, n: nat, to: seq<Byte>)
    requires n < |from| && n < |to|
    ensures PodCopy(from, n + 1, to)[n] == from[n] && PodCopy(from, n + 1, to)[..n] == from[..n]
  {
    var r := PodCopy(from, n + 1, to);
    assert r[n] == r[..n + 1][n];
    assert r[..n] == r[..n + 1][..n];
  }

  lemma SmallSplice(c: seq<Byte>, text: seq<Byte>, k: nat, data: seq<Byte>)
    requires CoreIs(c, Small(text)) && k + |data| <= |text|
    ensures k + |data| <= |c| && CoreIs(Splice(c, k, data), Small(Splice(text, k, data)))
  {
    SizeShortcut(c);
    var d := Splice(c, k, data);
    assert d[MAX_SMALL] == c[MAX_SMALL] && d[|text|] == c[|text|];
    assert d[..|text|] == Splice(text, k, data);
  }

  lemma BlockSplice(heap: Heap, r: Rep, k: nat, data: seq<Byte>)
    requires RepOk(heap, r) && !r.Small? && k + |data| <= r.size && heap[r.addr].refs == 1
    ensures k + |data| <= |heap[r.addr].chars|
    ensures var block := heap[r.addr].(chars := Splice(heap[r.addr].chars, k, data));
      && RepOk((heap - {r.addr})[r.addr := block], r)
      && Text((heap - {r.addr})[r.addr := block], r) == Splice(Text(heap, r), k, data)
  {
    var chars := heap[r.addr].chars;
    assert Splice(chars, k, data)[r.size] == chars[r.size];
    assert Splice(chars, k, data)[..r.size] == Splice(chars[..r.size], k, data);
  }

  lemma RecordIs(counted: bool, a: nat, size: nat, capacity: nat)
    requires a < WORD_LIMIT && size < WORD_LIMIT && capacity < CAPACITY_LIMIT
    ensures CoreIs(MlCore(counted, a, size, capacity), MlRep(counted, a, size, capacity))
  {
    MlRoundTrip(a, size, capacity, if counted then IS_LARGE else IS_MEDIUM);
  }

  lemma SizeChanged(heap: Heap, r: Rep, n: nat)
    requires RepOk(heap, r) && !r.Small? && n <= r.capacity && heap[r.addr].refs == 1
    ensures n < |heap[r.addr].chars|
    ensures var block := heap[r.addr].(chars := heap[r.addr].chars[n := 0]);
      var r' := MlRep(r.Large?, r.addr, n, r.capacity);
      && RepOk((heap - {r.addr})[r.addr := block], r')
      && Text((heap - {r.addr})[r.addr := block], r') == heap[r.addr].chars[..n]
  {
    assert heap[r.addr].chars[n := 0][..n] == heap[r.addr].chars[..n];
  }

  lemma SmallIs(c: seq<Byte>, n: nat)
    requires IsCore(c) && n <= MAX_SMALL
    ensures CoreIs(SetSmallSize(c, n), Small(c[..n]))
  {
    SmallRoundTrip(c, n);
  }

  lemma Terminated(heap: Heap, c: seq<Byte>, r: Rep)
    requires CoreIs(c, r) && RepOk(heap, r)
    ensures IsCore(c) && r.Small? ==> SizeOf(c) < |c| && c[..SizeOf(c) + 1] == Text(heap, r) + [0]
    ensures IsCore(c) && !r.Small? ==>
      r.addr in heap && SizeOf(c) < |heap[r.addr].chars| && heap[r.addr].chars[..SizeOf(c) + 1] == Text(heap, r) + [0]
  {
    hide WellFormed, View;
    CoreShape(c, r);
    var n := SizeOf(c);
    if r.Small? {
      assert c[..n + 1] == c[..n] + [c[n]];
    } else {
      var chars := heap[r.addr].chars;
      assert chars[..n + 1] == chars[..n] + [chars[n]];
    }
  }

  lemma NoStrings(heap: Heap, reps: map<nat, Rep>)
    requires Inv(heap, reps) && Texts(heap, reps) == map[]
    ensures heap == map[]
  {
    assert reps.Keys == Texts(heap, reps).Keys;
    assert reps == map[];
    NothingLeft(heap);
  }
}
