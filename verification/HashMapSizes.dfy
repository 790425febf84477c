/** With what the sub-maps of the growing hash map are made (libs/folly/folly/AtomicHashMap-inl.h:41-53,
    127-155, libs/folly/folly/AtomicHashArray-inl.h:38-47, 311-315): capacities, limits and masks
    from the settings given to the map, over the real numbers. */
module HashMapSizes {
  import opened Common
  import HashArray

  /** finalSizeEst and the Config given to the map; a negative `growthFactor` stands for the
      part of the primary that its load factor leaves free. */
  datatype Settings = Settings(
    hash: HashArray.Key -> nat,
    quadratic: bool,
    size: nat,
    maxLoad: real,
    growthFactor: real)

  /** What the constructor checks, and room for at least one key. */
  predicate ValidSettings(given: Settings) { given.size >= 1 && 0.0 < given.maxLoad < 1.0 }

  function GrowthOf(given: Settings): real {
    if given.growthFactor < 0.0 then 1.0 - given.maxLoad else given.growthFactor
  }

  function NextPowTwo(v: nat): (r: nat)
    ensures r >= 1
  {
    PowTwoFrom(1, v)
  }

  function PowTwoFrom(p: nat, v: nat): (r: nat)
    requires p >= 1
    ensures r >= p
    decreases if p < v then v - p else 0
  {
    if p >= v then p else PowTwoFrom(2 * p, v)
  }

  function CapacityFor(maxSize: int, load: real): nat {
    if load <= 0.0 || maxSize <= 0 then 0
    else
      Quotient(maxSize as real, load);
      (maxSize as real / load).Floor
  }

  function MaxEntries(cap: nat, load: real): nat {
    var x := load * cap as real + 0.5;
    if x < 0.0 then 0 else x.Floor
  }

  /** AtomicHashArray::create. */
  function ArrayFor(given: Settings, maxSize: int, load: real): HashArray.Config {
    var cap := CapacityFor(maxSize, load);
    HashArray.Config(cap, given.hash, NextPowTwo(cap) - 1, given.quadratic, MaxEntries(cap, load))
  }

  function Primary(given: Settings): HashArray.Config { ArrayFor(given, given.size, given.maxLoad) }

  /** maxLoadFactor() of an array: what its limit comes to. */
  function ReportedLoad(cfg: HashArray.Config): real {
    if cfg.cap == 0 then 0.0 else cfg.maxEntries as real / cfg.cap as real
  }

  function Power(x: real, n: nat): real {
    if n == 0 then 1.0 else x * Power(x, n - 1)
  }

  /** numCellsAllocated, when sub-map `i` is about to be made. */
  function NumCells(cap: nat, growth: real, i: nat): int
    requires i >= 1
  {
    (cap as real * Power(1.0 + growth, i - 1)).Floor
  }

  function NewSize(cells: int, growth: real): int { (cells as real * growth).Floor }

  /** With what sub-map `i` is made. */
  function ConfigAt(given: Settings, i: nat): HashArray.Config {
    if i == 0 then Primary(given)
    else
      var primary, growth := Primary(given), GrowthOf(given);
      ArrayFor(given, NewSize(NumCells(primary.cap, growth, i), growth), ReportedLoad(primary))
  }

  /** The test before a new sub-map is made. */
  predicate CanGrow(given: Settings) { Grows(Primary(given).cap, GrowthOf(given)) }

  predicate Grows(cap: nat, growth: real) { !(cap as real * growth < 1.0) }

  // ----- What the sizes are -----

  lemma Quotient(x: real, y: real)
    requires x >= 0.0 && y > 0.0
    ensures x / y >= 0.0 && (x / y) * y == x
  {
  }

  lemma Scale(c: real, x: real, y: real)
    requires c >= 0.0 && x <= y
    ensures c * x <= c * y && x * c <= y * c
  {
  }

  lemma ScaleLess(c: real, x: real, y: real)
    requires c > 0.0 && x < y
    ensures c * x < c * y && x * c < y * c
  {
  }

  lemma Between(x: real, y: real, f: real)
    requires x >= 0.0 && y > 0.0 && f <= x / y < f + 1.0
    ensures f * y <= x < (f + 1.0) * y
  {
    var q := x / y;
    Quotient(x, y);
    assert q * y == x;
    Scale(y, f, q);
    ScaleLess(y, q, f + 1.0);
  }

  /** The capacity is the largest with which the array, filled to its load, is no larger than
      asked for. */
  lemma CapacityIs(maxSize: nat, load: real)
    requires load > 0.0
    ensures var cap := CapacityFor(maxSize, load) as real; cap * load <= maxSize as real < (cap + 1.0) * load
  {
    var cap := CapacityFor(maxSize, load) as real;
    if maxSize > 0 {
      Between(maxSize as real, load, cap);
    } else {
      ScaleLess(load, 0.0, cap + 1.0);
    }
  }

  /** The primary sub-map has a cell, and what it reports as its load passes the checks of
      create(), so making a new sub-map never fails them. */
  lemma PrimaryIsUsable(given: Settings)
    requires ValidSettings(given)
    ensures Primary(given).cap >= 1 && 1 <= Primary(given).maxEntries <= Primary(given).cap
    ensures 0.0 < ReportedLoad(Primary(given)) <= 1.0
    ensures ReportedLoad(Primary(given)) * Primary(given).cap as real == Primary(given).maxEntries as real
    ensures GrowthOf(given) >= 0.0
  {
    var cap, load := Primary(given).cap, given.maxLoad;
    CapacityIs(given.size, load);
    assert cap >= 1 by {
      if cap == 0 {
        assert (0.0 + 1.0) * load == load;
      }
    }
    HalfFull(given.size, load, cap);
    LimitIs(cap, load);
    Ratio(Primary(given).maxEntries, cap);
  }

  /** With room for a key, more than half a cell's worth is used. */
  lemma HalfFull(size: nat, load: real, cap: nat)
    requires size >= 1 && 0.0 < load < 1.0 && cap >= 1 && size as real < (cap as real + 1.0) * load
    ensures load * cap as real > 0.5
  {
    Scale(load, 1.0, cap as real);
    assert (cap as real + 1.0) * load == load * cap as real + load;
  }

  lemma LimitIs(cap: nat, load: real)
    requires cap >= 1 && 0.0 < load < 1.0
    ensures var m := MaxEntries(cap, load); m as real <= load * cap as real + 0.5 < m as real + 1.0 && m <= cap
  {
    ScaleLess(cap as real, load, 1.0);
    Scale(cap as real, 0.0, load);
  }

  lemma Ratio(m: nat, cap: nat)
    requires 1 <= m <= cap
    ensures 0.0 < m as real / cap as real <= 1.0
  {
    Quotient(m as real, cap as real);
    var q := m as real / cap as real;
    if q > 1.0 {
      ScaleLess(cap as real, 1.0, q);
    }
  }

  lemma {:induction false} PowerAtLeastOne(x: real, n: nat)
    requires x >= 1.0
    ensures Power(x, n) >= 1.0
  {
    if n > 0 {
      PowerAtLeastOne(x, n - 1);
      Scale(x, 1.0, Power(x, n - 1));
    }
  }

  /** All cells before sub-map `i` is made, if every sub-map had exactly its share: the primary
      first, then each time the growth fraction of what was there. */
  function Total(cap: nat, growth: real, i: nat): real
    requires i >= 1
  {
    if i == 1 then cap as real else Total(cap, growth, i - 1) + growth * Total(cap, growth, i - 1)
  }

  lemma {:induction false} TotalIsPower(cap: nat, growth: real, i: nat)
    requires i >= 1
    ensures Total(cap, growth, i) == cap as real * Power(1.0 + growth, i - 1)
  {
    if i > 1 {
      TotalIsPower(cap, growth, i - 1);
      var p := Power(1.0 + growth, i - 2);
      Distribute(cap as real, growth, p);
    }
  }

  lemma Distribute(c: real, g: real, p: real)
    ensures c * p + g * (c * p) == c * ((1.0 + g) * p)
  {
  }

  /** The power in the source counts the cells there are, rounded down. */
  lemma NumCellsIs(cap: nat, growth: real, i: nat)
    requires i >= 1
    ensures var cells := NumCells(cap, growth, i) as real; cells <= Total(cap, growth, i) < cells + 1.0
    ensures growth >= 0.0 ==> NumCells(cap, growth, i) >= cap
  {
    TotalIsPower(cap, growth, i);
    if growth >= 0.0 {
      PowerAtLeastOne(1.0 + growth, i - 1);
      Scale(cap as real, 1.0, Power(1.0 + growth, i - 1));
    }
  }

  lemma NewSizeIs(cap: nat, cells: int, growth: real)
    requires growth >= 0.0 && cells >= cap && Grows(cap, growth)
    ensures var size := NewSize(cells, growth) as real; 1.0 <= size <= cells as real * growth < size + 1.0
  {
    assert cap as real * growth >= 1.0;
    Scale(growth, cap as real, cells as real);
  }

  lemma HoldsOne(size: nat, load: real)
    requires size >= 1 && 0.0 < load <= 1.0
    ensures CapacityFor(size, load) >= 1
  {
    CapacityIs(size, load);
    if CapacityFor(size, load) == 0 {
      assert (0.0 + 1.0) * load == load;
    }
  }

  /** The chain of sizes for a new sub-map. */
  lemma GrowsBy(cap: nat, growth: real, load: real, i: nat)
    requires growth >= 0.0 && Grows(cap, growth) && 0.0 < load <= 1.0 && i >= 1
    ensures var cells := NumCells(cap, growth, i); var size := NewSize(cells, growth);
      && cells as real <= Total(cap, growth, i) < cells as real + 1.0
      && size >= 1 && size as real <= cells as real * growth < size as real + 1.0
      && CapacityFor(size, load) >= 1
      && CapacityFor(size, load) as real * load <= size as real < (CapacityFor(size, load) as real + 1.0) * load
  {
    hide NumCells, CapacityFor, Total, NewSize;
    var cells := NumCells(cap, growth, i);
    NumCellsIs(cap, growth, i);
    NewSizeIs(cap, cells, growth);
    CapacityIs(NewSize(cells, growth), load);
    HoldsOne(NewSize(cells, growth), load);
  }

  /** `cfg` is for the array that follows `i` others, the first of which is `primary`. */
  ghost predicate GrownFrom(primary: HashArray.Config, growth: real, i: nat, cfg: HashArray.Config)
    requires i >= 1
  {
    && cfg.cap == CapacityFor(NewSize(NumCells(primary.cap, growth, i), growth), ReportedLoad(primary))
    && cfg.maxEntries == MaxEntries(cfg.cap, ReportedLoad(primary)) && cfg.mask == NextPowTwo(cfg.cap) - 1
    && cfg.hash == primary.hash && cfg.quadratic == primary.quadratic
  }

  lemma ConfigAtIs(given: Settings, i: nat)
    requires i >= 1
    ensures var cfg, primary, growth := ConfigAt(given, i), Primary(given), GrowthOf(given);
      && cfg.cap == CapacityFor(NewSize(NumCells(primary.cap, growth, i), growth), ReportedLoad(primary))
      && cfg.hash == primary.hash == given.hash && cfg.quadratic == primary.quadratic == given.quadratic
      && GrownFrom(primary, growth, i, cfg)
  {
    hide NumCells, CapacityFor, NewSize, ReportedLoad, NextPowTwo, MaxEntries;
  }

  lemma FirstIsPrimary(given: Settings)
    ensures ConfigAt(given, 0) == Primary(given)
  {
  }

  lemma GrowthTest(given: Settings)
    requires CanGrow(given)
    ensures Grows(Primary(given).cap, GrowthOf(given))
  {
  }

  /** The test before growing is what makes every new sub-map have a cell. */
  lemma NewCapacityPositive(given: Settings, i: nat)
    requires ValidSettings(given) && CanGrow(given)
    ensures ConfigAt(given, i).cap >= 1
  {
    hide *;
    PrimaryIsUsable(given);
    if i == 0 {
      FirstIsPrimary(given);
    } else {
      ConfigAtIs(given, i);
      GrowthTest(given);
      GrowsBy(Primary(given).cap, GrowthOf(given), ReportedLoad(Primary(given)), i);
    }
  }

  /** What a new sub-map is made with, in numbers: as many cells as hold, at the load that the
      primary reports, the growth fraction of the cells there are; the hash and the probes of
      the primary. */
  lemma NewSubMapIs(given: Settings, i: nat)
    requires ValidSettings(given) && CanGrow(given) && i >= 1
    ensures var cfg, primary, growth := ConfigAt(given, i), Primary(given), GrowthOf(given);
      var cells, load := NumCells(primary.cap, growth, i), ReportedLoad(primary);
      var size := NewSize(cells, growth);
      && cells as real <= Total(primary.cap, growth, i) < cells as real + 1.0
      && size as real <= cells as real * growth < size as real + 1.0
      && cfg.cap as real * load <= size as real < (cfg.cap as real + 1.0) * load
      && cfg.hash == primary.hash == given.hash && cfg.quadratic == primary.quadratic == given.quadratic
  {
    hide *;
    ConfigAtIs(given, i);
    PrimaryIsUsable(given);
    GrowthTest(given);
    GrowsBy(Primary(given).cap, GrowthOf(given), ReportedLoad(Primary(given)), i);
  }

  // ----- The anchor mask -----

  predicate PowTwo(p: nat)
  {
    p == 1 || (p > 1 && p % 2 == 0 && PowTwo(p / 2))
  }

  lemma {:induction false} PowTwoFromIs(p: nat, v: nat)
    requires PowTwo(p) && p >= 1
    ensures PowTwo(PowTwoFrom(p, v)) && PowTwoFrom(p, v) >= v && PowTwoFrom(p, v) >= p
    ensures PowTwoFrom(p, v) > p ==> PowTwoFrom(p, v) < 2 * v
    decreases if p < v then v - p else 0
  {
    if p < v {
      assert (2 * p) / 2 == p;
      PowTwoFromIs(2 * p, v);
    }
  }

  /** The mask is one less than the least power of two that reaches the capacity. */
  lemma MaskIs(given: Settings, i: nat)
    ensures var cfg := ConfigAt(given, i);
      && PowTwo(cfg.mask + 1) && cfg.cap <= cfg.mask + 1 && (cfg.cap > 1 ==> cfg.mask + 1 < 2 * cfg.cap)
      && (cfg.cap <= 1 ==> cfg.mask == 0)
  {
    PowTwoFromIs(1, ConfigAt(given, i).cap);
  }
}
