/** The 24-byte storage of fbstring_core (libs/folly/folly/FBString.h:592-670) on a
    64-bit little-endian machine with one-byte characters: a union of a small buffer
    and a (pointer, size, capacity) record, told apart by two bits of the last byte. */
module FbStringLayout {
  import opened Common

  type Byte = x: nat | x < 256

  const MAX_SMALL := 23
  const MAX_MEDIUM := 254
  const CATEGORY_MASK := 0xC0
  const IS_SMALL := 0
  const IS_MEDIUM := 0x80
  const IS_LARGE := 0x40
  /** Capacities share their word with the category and must stay below this. */
  const CAPACITY_LIMIT := 0x4000_0000_0000_0000
  const CATEGORY_UNIT := 0x100_0000_0000_0000
  const WORD_LIMIT := 0x1_0000_0000_0000_0000

  // ----- Words in memory -----

  function Pow256(n: nat): (p: nat)
    ensures p >= 1
  {
    if n == 0 then 1 else 256 * Pow256(n - 1)
  }

  lemma Powers()
    ensures Pow256(7) == CATEGORY_UNIT && Pow256(8) == WORD_LIMIT
  {
    assert Pow256(2) == 65536;
    assert Pow256(4) == 65536 * 65536;
    assert Pow256(6) == 65536 * 65536 * 65536;
  }

  /** The `n` little-endian bytes of a word, and back. */
  function WordBytes(w: nat, n: nat): (b: seq<Byte>)
    ensures |b| == n
  {
    if n == 0 then [] else [w % 256] + WordBytes(w / 256, n - 1)
  }

  function WordOf(b: seq<Byte>): nat {
    if |b| == 0 then 0 else b[0] + 256 * WordOf(b[1..])
  }

  lemma {:induction false} WordRoundTrip(w: nat, n: nat)
    requires w < Pow256(n)
    ensures WordOf(WordBytes(w, n)) == w
  {
    if n > 0 {
      WordRoundTrip(w / 256, n - 1);
      assert WordBytes(w, n)[1..] == WordBytes(w / 256, n - 1);
    }
  }

  lemma {:induction false} WordBound(b: seq<Byte>)
    ensures WordOf(b) < Pow256(|b|)
  {
    if |b| > 0 {
      WordBound(b[1..]);
    }
  }

  /** The last byte is the top digit. */
  lemma {:induction false} WordTop(b: seq<Byte>)
    requires |b| > 0
    ensures WordOf(b) == WordOf(b[..|b| - 1]) + Pow256(|b| - 1) * b[|b| - 1]
  {
    if |b| == 1 {
      assert WordOf(b[1..]) == 0;
    } else {
      WordTop(b[1..]);
      assert b[1..][..|b| - 2] == b[..|b| - 1][1..];
    }
  }

  // ----- The union -----

  /** What a storage means. */
  datatype Rep =
    | Small(text: seq<Byte>)
    | Medium(addr: nat, size: nat, capacity: nat)
    | Large(addr: nat, size: nat, capacity: nat)

  predicate IsCore(c: seq<Byte>) { |c| == 24 }

  function CategoryOf(c: seq<Byte>): nat
    requires IsCore(c)
  {
    BitAnd(c[MAX_SMALL], CATEGORY_MASK)
  }

  function DataWord(c: seq<Byte>): nat
    requires IsCore(c)
  {
    WordOf(c[..8])
  }

  function SizeWord(c: seq<Byte>): nat
    requires IsCore(c)
  {
    WordOf(c[8..16])
  }

  /** capacity(): the capacity word with the category bits masked off. */
  function CapacityOf(c: seq<Byte>): nat
    requires IsCore(c)
  {
    WordOf(c[16..]) % CAPACITY_LIMIT
  }

  predicate WellFormed(c: seq<Byte>) {
    IsCore(c) &&
    var k := CategoryOf(c);
    if k == IS_SMALL then c[MAX_SMALL] <= MAX_SMALL && c[MAX_SMALL - c[MAX_SMALL]] == 0
    else k == IS_MEDIUM || k == IS_LARGE
  }

  function View(c: seq<Byte>): (r: Rep)
    requires WellFormed(c)
  {
    var k := CategoryOf(c);
    if k == IS_SMALL then Small(c[..MAX_SMALL - c[MAX_SMALL]])
    else if k == IS_MEDIUM then Medium(DataWord(c), SizeWord(c), CapacityOf(c))
    else Large(DataWord(c), SizeWord(c), CapacityOf(c))
  }

  /** size() as compiled for little-endian: one subtraction and a sign test instead of
      a look at the category. */
  function SizeOf(c: seq<Byte>): nat
    requires IsCore(c)
  {
    var maybeSmallSize := MAX_SMALL - c[MAX_SMALL];
    if maybeSmallSize >= 0 then maybeSmallSize else SizeWord(c)
  }

  // ----- Writing it -----

  function SetSmallSize(c: seq<Byte>, s: nat): (r: seq<Byte>)
    requires IsCore(c) && s <= MAX_SMALL
    ensures IsCore(r)
  {
    c[MAX_SMALL := MAX_SMALL - s][s := 0]
  }

  /** The pointer, the size and setCapacity. */
  function PackMl(addr: nat, size: nat, capacity: nat, category: nat): (r: seq<Byte>)
    ensures IsCore(r)
  {
    WordBytes(addr, 8) + WordBytes(size, 8) + WordBytes(capacity + category * CATEGORY_UNIT, 8)
  }

  // ----- The two readings agree -----

  lemma AndDouble(b: nat, m: nat)
    ensures BitAnd(b, 2 * m) == 2 * BitAnd(b / 2, m)
  {
    assert (2 * m) % 2 == 0 && (2 * m) / 2 == m;
    if b > 0 && m > 0 {
      assert BitAnd(b, 2 * m) == (b % 2) * ((2 * m) % 2) + 2 * BitAnd(b / 2, (2 * m) / 2);
    }
  }

  /** The mask keeps the top two bits. */
  lemma CategoryBits(b: Byte)
    ensures BitAnd(b, CATEGORY_MASK) == b / 64 * 64
  {
    hide BitAnd;
    AndDouble(b, 96);
    AndDouble(b / 2, 48);
    AndDouble(b / 4, 24);
    AndDouble(b / 8, 12);
    AndDouble(b / 16, 6);
    AndDouble(b / 32, 3);
    AndThree(b / 64);
  }

  lemma AndThree(q: nat)
    requires q < 4
    ensures BitAnd(q, 3) == q
  {
    assert BitAnd(q / 2, 1) == q / 2;
  }

  /** The shortcut in size() is right: the last byte, taken as a number, is at most 23
      exactly for small strings. */
  lemma SizeShortcut(c: seq<Byte>)
    requires WellFormed(c)
    ensures SizeOf(c) == match View(c) case Small(text) => |text| case Medium(_, n, _) => n case Large(_, n, _) => n
  {
    CategoryBits(c[MAX_SMALL]);
  }

  /** A small string keeps its terminator, at the largest size in the very byte that
      says how much room is left. */
  lemma SmallRoundTrip(c: seq<Byte>, s: nat)
    requires IsCore(c) && s <= MAX_SMALL
    ensures WellFormed(SetSmallSize(c, s)) && View(SetSmallSize(c, s)) == Small(c[..s])
  {
    var r := SetSmallSize(c, s);
    CategoryBits(r[MAX_SMALL]);
    assert r[..s] == c[..s];
  }

  lemma CapacityWord(b: seq<Byte>, capacity: nat, category: nat)
    requires capacity < CAPACITY_LIMIT && (category == IS_MEDIUM || category == IS_LARGE)
    requires |b| == 8 && WordOf(b) == capacity + category * CATEGORY_UNIT
    ensures b[7] / 64 * 64 == category && WordOf(b) % CAPACITY_LIMIT == capacity
  {
    WordTop(b);
    WordBound(b[..7]);
    Powers();
  }

  /** Packing the record and reading it back: no field disturbs another. */
  lemma MlRoundTrip(addr: nat, size: nat, capacity: nat, category: nat)
    requires addr < WORD_LIMIT && size < WORD_LIMIT && capacity < CAPACITY_LIMIT
    requires category == IS_MEDIUM || category == IS_LARGE
    ensures var c := PackMl(addr, size, capacity, category);
      && WellFormed(c)
      && View(c) == (if category == IS_MEDIUM then Medium(addr, size, capacity) else Large(addr, size, capacity))
  {
    var c := PackMl(addr, size, capacity, category);
    var w := capacity + category * CATEGORY_UNIT;
    assert c[..8] == WordBytes(addr, 8) && c[8..16] == WordBytes(size, 8) && c[16..] == WordBytes(w, 8);
    Powers();
    WordRoundTrip(addr, 8);
    WordRoundTrip(size, 8);
    WordRoundTrip(w, 8);
    CapacityWord(c[16..], capacity, category);
    CategoryBits(c[MAX_SMALL]);
  }
}
