/** Integer printing in folly (libs/folly/folly/Conv.h): the digit count in its two
    versions, the backwards writer and the signed wrapper. */
module ConvPrint {
  import opened Decimal

  const LIMIT64: nat := 0x1_0000_0000_0000_0000

  const POWERS_OF_10: seq<nat> := [
    1,
    10,
    100,
    1000,
    10000,
    100000,
    1000000,
    10000000,
    100000000,
    1000000000,
    10000000000,
    100000000000,
    1000000000000,
    10000000000000,
    100000000000000,
    1000000000000000,
    10000000000000000,
    100000000000000000,
    1000000000000000000,
    10000000000000000000]

  function Pow2(n: nat): (p: nat)
    ensures p >= 1
  {
    if n == 0 then 1 else 2 * Pow2(n - 1)
  }

  /** 63 minus the count of leading zeros: the position of the highest bit. */
  function HighBit(v: nat): nat
    requires v > 0
  {
    if v == 1 then 0 else 1 + HighBit(v / 2)
  }

  lemma {:induction false} HighBitBounds(v: nat)
    requires v > 0
    ensures Pow2(HighBit(v)) <= v < 2 * Pow2(HighBit(v))
  {
    if v > 1 {
      HighBitBounds(v / 2);
    }
  }

  lemma {:induction false} Pow2Monotone(a: nat, b: nat)
    requires a <= b
    ensures Pow2(a) <= Pow2(b)
    decreases b - a
  {
    if a < b {
      Pow2Monotone(a, b - 1);
    }
  }

  lemma {:induction false} Pow2Add(a: nat, b: nat)
    ensures Pow2(a + b) == Pow2(a) * Pow2(b)
    decreases b
  {
    if b > 0 {
      Pow2Add(a, b - 1);
      assert Pow2(a + b) == 2 * (Pow2(a) * Pow2(b - 1)) == Pow2(a) * (2 * Pow2(b - 1));
    }
  }

  lemma {:induction false} Pow10Add(a: nat, b: nat)
    ensures Pow10(a + b) == Pow10(a) * Pow10(b)
    decreases b
  {
    if b > 0 {
      Pow10Add(a, b - 1);
      assert Pow10(a + b) == 10 * (Pow10(a) * Pow10(b - 1)) == Pow10(a) * (10 * Pow10(b - 1));
    }
  }

  lemma SmallPowers()
    ensures Pow2(0) == 1 && Pow2(1) == 2 && Pow2(2) == 4 && Pow2(3) == 8 && Pow2(4) == 16
    ensures Pow2(5) == 32 && Pow2(6) == 64 && Pow2(7) == 128 && Pow2(8) == 256 && Pow2(9) == 512 && Pow2(10) == 1024
    ensures Pow10(0) == 1 && Pow10(1) == 10 && Pow10(2) == 100 && Pow10(3) == 1000 && Pow10(4) == 10000
  {
  }

  lemma HighBitBelow64(v: nat)
    requires 0 < v < LIMIT64
    ensures HighBit(v) < 64
  {
    HighBitBounds(v);
    SmallPowers();
    Pow2Add(8, 8);
    Pow2Add(16, 16);
    Pow2Add(32, 32);
    assert Pow2(64) == LIMIT64;
    if HighBit(v) >= 64 {
      Pow2Monotone(64, HighBit(v));
    }
  }

  /** The estimate 1 + bits * 77 / 256 of the number of digits. */
  function MinLength(bits: nat): (n: nat)
    ensures n >= 1
  {
    1 + bits * 77 / 256
  }

  const POWERS_OF_1024: seq<nat> := [
    1, 1024, 1048576, 1073741824, 1099511627776, 1125899906842624, 1152921504606846976]

  lemma {:induction false} PowersOf1024(q: nat)
    requires q <= 6
    ensures Pow2(10 * q) == POWERS_OF_1024[q]
  {
    if q > 0 {
      PowersOf1024(q - 1);
      SmallPowers();
      Pow2Add(10 * (q - 1), 10);
    }
  }

  /** Ten bits are three digits and at most a fifth more, up to sixty bits. */
  lemma TenBitsAreThreeDigits(q: nat)
    requires q <= 6
    ensures Pow10(3 * q) <= Pow2(10 * q)
    ensures 5 * Pow2(10 * q) <= 6 * Pow10(3 * q)
  {
    PowersOf1024(q);
    PowersTable(3 * q);
  }

  lemma UnitEstimate(r: nat)
    requires r < 10
    ensures Pow10(MinLength(r) - 1) <= Pow2(r)
    ensures 12 * Pow2(r) <= 500 * Pow10(MinLength(r) - 1)
    ensures Pow10(MinLength(r) + 1) == 100 * Pow10(MinLength(r) - 1)
  {
    hide MinLength;
    SmallPowers();
    MinLengthSplit(0, r);
  }

  /** The estimate, ten bits at a time: 10 * 77 is just above 3 * 256. */
  lemma MinLengthSplit(q: nat, r: nat)
    requires q <= 6 && r < 10
    ensures MinLength(10 * q + r) == 3 * q + (if r < 4 then 1 else if r < 7 then 2 else 3)
  {
    var t := if r < 4 then 0 else if r < 7 then 1 else 2;
    assert 256 * (3 * q + t) <= (10 * q + r) * 77 < 256 * (3 * q + t + 1);
  }

  lemma ProductLe(a: nat, b: nat, c: nat, d: nat)
    requires a <= b && c <= d
    ensures a * c <= b * d
  {
    assert a * c <= b * c by {
      assert b * c == a * c + (b - a) * c;
    }
    assert b * d == b * c + b * (d - c);
  }

  /** The estimate is never too long, and at most one too short, for numbers whose
      highest bit is `bits`. */
  lemma EstimateOk(bits: nat)
    requires bits < 64
    ensures Pow10(MinLength(bits) - 1) <= Pow2(bits)
    ensures 2 * Pow2(bits) <= Pow10(MinLength(bits) + 1)
  {
    hide MinLength, Pow2, Pow10;
    var q, r := bits / 10, bits % 10;
    var m := MinLength(r);
    MinLengthSplit(q, r);
    MinLengthSplit(0, r);
    assert MinLength(bits) == 3 * q + m;
    TenBitsAreThreeDigits(q);
    UnitEstimate(r);
    Pow2Add(10 * q, r);
    Pow10Add(3 * q, m - 1);
    Pow10Add(3 * q, m + 1);
    EstimateProduct(Pow2(10 * q), Pow10(3 * q), Pow2(r), Pow10(m - 1));
  }

  lemma EstimateProduct(x: nat, p: nat, a: nat, b: nat)
    requires p <= x && 5 * x <= 6 * p && b <= a && 12 * a <= 500 * b
    ensures p * b <= x * a && 2 * (x * a) <= p * (100 * b)
  {
    ProductLe(p, x, b, a);
    ProductLe(5 * x, 6 * p, a, a);
    ProductLe(p, p, 12 * a, 500 * b);
  }

  /** digits10 on x86-64: exact for every 64-bit value. */
  method Digits10Table(v: nat) returns (n: nat)
    requires v < LIMIT64
    ensures n == DecimalLength(v)
  {
    if v == 0 {
      return 1;
    }
    HighBitBelow64(v);
    HighBitBounds(v);
    var bits := HighBit(v);
    var minLength := MinLength(bits);
    EstimateOk(bits);
    PowersTable(minLength);
    n := minLength + (if v >= POWERS_OF_10[minLength] then 1 else 0);
    LengthUnique(v, n);
  }

  lemma {:induction false} PowersTable(i: nat)
    requires i < 20
    ensures POWERS_OF_10[i] == Pow10(i)
  {
    if i > 0 {
      PowersTable(i - 1);
    }
  }

  lemma FourDigits(v: nat)
    requires v >= 10000
    ensures DecimalLength(v) == 4 + DecimalLength(v / 10000)
  {
    assert DecimalLength(v / 10) == 1 + DecimalLength(v / 10 / 10);
    assert DecimalLength(v / 10 / 10) == 1 + DecimalLength(v / 10 / 10 / 10);
    assert DecimalLength(v / 10 / 10 / 10) == 1 + DecimalLength(v / 10 / 10 / 10 / 10);
    assert v / 10 / 10 / 10 / 10 == v / 10000;
  }

  /** digits10 elsewhere: four digits at a time. */
  method Digits10Loop(value: nat) returns (n: nat)
    ensures n == DecimalLength(value)
  {
    var v := value;
    n := 1;
    while true
      invariant n + DecimalLength(v) == 1 + DecimalLength(value)
      decreases v
    {
      assert v < 100 ==> DecimalLength(v / 10) == 1;
      assert v < 1000 ==> DecimalLength(v / 10 / 10) == 1;
      assert v < 10000 ==> DecimalLength(v / 10 / 10 / 10) == 1;
      if v < 10 {
        return;
      }
      if v < 100 {
        return n + 1;
      }
      if v < 1000 {
        return n + 2;
      }
      if v < 10000 {
        return n + 3;
      }
      FourDigits(v);
      v := v / 10000;
      n := n + 4;
    }
  }

  /** uint64ToBufferUnsafe: writes the decimal notation, and nothing else, into the
      first digits10(value) characters of the buffer. */
  method ToBuffer(value: nat, buffer: array<char>) returns (n: nat)
    requires value < LIMIT64 && DecimalLength(value) <= buffer.Length
    modifies buffer
    ensures n == DecimalLength(value)
    ensures buffer[..n] == Digits(value)
    ensures buffer[n..] == old(buffer[n..])
  {
    n := Digits10Table(value);
    var v, pos := value, n - 1;
    DigitsLength(value);
    while v >= 10
      invariant pos < n && pos + 1 == DecimalLength(v)
      invariant Digits(value) == Digits(v) + buffer[pos + 1..n]
      invariant buffer[n..] == old(buffer[n..])
      decreases v
    {
      var q, r := v / 10, v % 10;
      buffer[pos] := DigitChar(r);
      assert Digits(v) == Digits(q) + [DigitChar(r)];
      pos := pos - 1;
      v := q;
      DigitsLength(v);
    }
    buffer[pos] := DigitChar(v);
  }

  /** The text of a signed number. */
  function SignedDigits(v: int): string {
    if v < 0 then "-" + Digits(-v) else Digits(v)
  }

  /** toAppend for signed types: the magnitude of a negative value is computed in
      uint64_t as the complement plus one, so the most negative value is printed
      like any other. */
  method AppendSigned(value: int, text: string) returns (r: string)
    requires -0x8000_0000_0000_0000 <= value < 0x8000_0000_0000_0000
    ensures r == text + SignedDigits(value)
  {
    hide Digits, DecimalLength;
    var buffer := new char[20];
    r := text;
    var word := if value < 0 then value + LIMIT64 else value;
    if value < 0 {
      ComplementPlusOne(value);
      word := ((LIMIT64 - 1 - word) + 1) % LIMIT64;
      r := r + ['-'];
    }
    LengthAtMost20(word);
    var n := ToBuffer(word, buffer);
    r := r + buffer[..n];
  }

  lemma ComplementPlusOne(value: int)
    requires -0x8000_0000_0000_0000 <= value < 0
    ensures ((LIMIT64 - 1 - (value + LIMIT64)) + 1) % LIMIT64 == -value
  {
  }

  /** A 64-bit value needs at most 20 characters. */
  lemma LengthAtMost20(v: nat)
    requires v < LIMIT64
    ensures DecimalLength(v) <= 20
  {
    LengthBounds(v);
    PowersTable(19);
    if DecimalLength(v) > 20 {
      Pow10Monotone(20, DecimalLength(v) - 1);
    }
  }
}
