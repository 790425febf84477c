/** Integer parsing in folly (libs/folly/folly/Conv.cpp): digits_to and
    str_to_integral for every integer width, with the source's unsigned
    wrap-around written out. */
module ConvParse {
  import opened Decimal
  import opened Common
  import ConvPrint

  datatype Code =
    | EmptyInputString
    | NoDigits
    | InvalidLeadingChar
    | NonDigitChar
    | PositiveOverflow
    | NegativeOverflow

  datatype Result = Ok(value: int) | Err(code: Code)

  /** A target type: its width and whether it is signed. */
  datatype IntType = IntType(bits: nat, signed: bool)

  predicate ValidBits(bits: nat) { bits == 8 || bits == 16 || bits == 32 || bits == 64 || bits == 128 }

  predicate ValidType(t: IntType) { ValidBits(t.bits) }

  /** 2^bits: the unsigned type counts modulo this. */
  function Modulus(bits: nat): (m: nat)
    ensures m >= 1
  {
    ConvPrint.Pow2(bits)
  }

  predicate InRange(t: IntType, v: int) {
    if t.signed then 0 <= Modulus(t.bits) + 2 * v && 2 * v < Modulus(t.bits) else 0 <= v < Modulus(t.bits)
  }

  /** numeric_limits<UT>::digits10: so many digits always fit. */
  function SafeDigits(bits: nat): nat {
    if bits == 8 then 2 else if bits == 16 then 4 else if bits == 32 then 9 else if bits == 64 then 19 else 38
  }

  /** MaxString<UT>::value. */
  function MaxString(bits: nat): string {
    if bits == 8 then "255"
    else if bits == 16 then "65535"
    else if bits == 32 then "42" + "9496" + "7295"
    else if bits == 64 then "1844" + "6744" + "0737" + "0955" + "1615"
    else "340" + "2823" + "6692" + "0938" + "4634" + "6337" + "4607" + "4317" + "6821" + "1455"
  }

  const OOR: nat := 10000

  /** The lookup tables shift1, shift10, shift100 and shift1000. */
  function Shift(c: char, scale: nat): nat {
    if IsDigit(c) then DigitValue(c) * scale else OOR
  }

  /** strncmp(s, t, |s|) > 0 for strings of the same length. */
  predicate LexGreater(s: string, t: string)
    requires |s| == |t|
  {
    |s| > 0 && (s[0] > t[0] || (s[0] == t[0] && LexGreater(s[1..], t[1..])))
  }

  // ----- Facts about the widths -----

  lemma AppendFour(s: string, t: string)
    requires AllDigits(s) && |t| == 4 && AllDigits(t)
    ensures AllDigits(s + t)
    ensures Value(s + t) == 10000 * Value(s) + Shift(t[0], 1000) + Shift(t[1], 100) + Shift(t[2], 10) + Shift(t[3], 1)
  {
    ValueConcat(s, t);
    ConvPrint.SmallPowers();
    FewDigits(t);
  }

  /** Up to four digits, as the tables add them up. */
  lemma {:induction false} FewDigits(t: string)
    requires AllDigits(t)
    ensures |t| == 1 ==> Value(t) == Shift(t[0], 1)
    ensures |t| == 2 ==> Value(t) == Shift(t[0], 10) + Shift(t[1], 1)
    ensures |t| == 3 ==> Value(t) == Shift(t[0], 100) + Shift(t[1], 10) + Shift(t[2], 1)
    ensures |t| == 4 ==> Value(t) == Shift(t[0], 1000) + Shift(t[1], 100) + Shift(t[2], 10) + Shift(t[3], 1)
  {
    if 1 < |t| <= 4 {
      FewDigits(t[..|t| - 1]);
    }
  }

  lemma Moduli()
    ensures Modulus(8) == 256 && Modulus(16) == 65536 && Modulus(32) == 4294967296
    ensures Modulus(64) == 18446744073709551616
    ensures Modulus(128) == 340282366920938463463374607431768211456
  {
    ConvPrint.SmallPowers();
    ConvPrint.Pow2Add(8, 8);
    ConvPrint.Pow2Add(16, 16);
    ConvPrint.Pow2Add(32, 32);
    ConvPrint.Pow2Add(64, 64);
  }

  lemma Max32()
    ensures AllDigits(MaxString(32)) && |MaxString(32)| == 10 && Value(MaxString(32)) == 4294967295
  {
    FewDigits("42");
    AppendFour("42", "9496");
    AppendFour("42" + "9496", "7295");
  }

  lemma Max64()
    ensures AllDigits(MaxString(64)) && |MaxString(64)| == 20 && Value(MaxString(64)) == 18446744073709551615
  {
    FewDigits("1844");
    var a := "1844" + "6744";
    AppendFour("1844", "6744");
    var b := a + "0737";
    AppendFour(a, "0737");
    var c := b + "0955";
    AppendFour(b, "0955");
    AppendFour(c, "1615");
  }

  const HALF_128: string := "340" + "2823" + "6692" + "0938" + "4634"

  lemma Half128()
    ensures AllDigits(HALF_128) && |HALF_128| == 19 && Value(HALF_128) == 3402823669209384634
  {
    hide Value;
    FewDigits("340");
    var a := "340" + "2823";
    AppendFour("340", "2823");
    var b := a + "6692";
    AppendFour(a, "6692");
    var c := b + "0938";
    AppendFour(b, "0938");
    AppendFour(c, "4634");
  }

  lemma Max128()
    ensures AllDigits(MaxString(128)) && |MaxString(128)| == 39
    ensures Value(MaxString(128)) == 340282366920938463463374607431768211455
  {
    hide Value;
    Half128();
    var e := HALF_128 + "6337";
    AppendFour(HALF_128, "6337");
    var f := e + "4607";
    AppendFour(e, "4607");
    var g := f + "4317";
    AppendFour(f, "4317");
    var h := g + "6821";
    AppendFour(g, "6821");
    AppendFour(h, "1455");
  }

  lemma Max16()
    ensures AllDigits(MaxString(16)) && |MaxString(16)| == 5 && Value(MaxString(16)) == 65535
  {
    hide Value;
    FewDigits("6");
    AppendFour("6", "5535");
    assert "6" + "5535" == "65535";
  }

  lemma Max8()
    ensures AllDigits(MaxString(8)) && |MaxString(8)| == 3 && Value(MaxString(8)) == 255
  {
    FewDigits("255");
  }

  lemma SafePowers()
    ensures Pow10(2) == 100 && Pow10(4) == 10000 && Pow10(9) == 1000000000
    ensures Pow10(19) == 10000000000000000000
    ensures Pow10(38) == 100000000000000000000000000000000000000
  {
    ConvPrint.PowersTable(2);
    ConvPrint.PowersTable(4);
    ConvPrint.PowersTable(9);
    ConvPrint.PowersTable(19);
    ConvPrint.Pow10Add(19, 19);
  }

  /** The constants fit together: MaxString is the largest value, one digit longer
      than what is always safe. */
  lemma WidthFacts(bits: nat)
    requires ValidBits(bits)
    ensures AllDigits(MaxString(bits)) && |MaxString(bits)| == SafeDigits(bits) + 1
    ensures Value(MaxString(bits)) == Modulus(bits) - 1
    ensures Pow10(SafeDigits(bits)) <= Modulus(bits)
  {
    hide Value, AllDigits, MaxString, Pow10, Modulus;
    Moduli();
    SafePowers();
    Max8();
    Max16();
    Max32();
    Max64();
    Max128();
  }

  lemma FirstDigit(s: string)
    requires AllDigits(s) && |s| > 0
    ensures AllDigits(s[1..]) && Value(s) == DigitValue(s[0]) * Pow10(|s| - 1) + Value(s[1..])
  {
    assert s == s[..1] + s[1..];
    ValueConcat(s[..1], s[1..]);
    FewDigits(s[..1]);
  }

  lemma CompareLeading(a: nat, b: nat, p: nat, x: nat, y: nat)
    requires x < p && y < p
    ensures a * p + x > b * p + y <==> a > b || (a == b && x > y)
  {
    if a > b {
      MulLe(b + 1, a, p);
    } else if a < b {
      MulLe(a + 1, b, p);
    }
  }

  /** Comparing digit strings of one length as text compares their values. */
  lemma {:induction false} LexIsNumeric(s: string, t: string)
    requires AllDigits(s) && AllDigits(t) && |s| == |t|
    ensures LexGreater(s, t) <==> Value(s) > Value(t)
  {
    if |s| > 0 {
      hide Value, Pow10;
      FirstDigit(s);
      FirstDigit(t);
      LexIsNumeric(s[1..], t[1..]);
      ValueBounds(s[1..]);
      ValueBounds(t[1..]);
      CompareLeading(DigitValue(s[0]), DigitValue(t[0]), Pow10(|s| - 1), Value(s[1..]), Value(t[1..]));
    }
  }

  /** The length test and the text comparison that let a string through. */
  predicate PassesCheck(bits: nat, s: string) {
    |s| <= SafeDigits(bits) || (|s| == SafeDigits(bits) + 1 == |MaxString(bits)| && !LexGreater(s, MaxString(bits)))
  }

  /** No prefix of a string that passes overflows the unsigned type. */
  lemma PrefixFits(bits: nat, s: string, k: nat)
    requires ValidBits(bits) && PassesCheck(bits, s) && k <= |s| && AllDigits(s[..k])
    ensures Value(s[..k]) < Modulus(bits)
  {
    WidthFacts(bits);
    ValueBounds(s[..k]);
    if k <= SafeDigits(bits) {
      Pow10Monotone(k, SafeDigits(bits));
    } else {
      assert s[..k] == s;
      LexIsNumeric(s, MaxString(bits));
    }
  }

  /** A digit string without leading zero passes exactly when its value fits. */
  lemma PassesIffFits(bits: nat, s: string)
    requires ValidBits(bits) && AllDigits(s) && (|s| > SafeDigits(bits) ==> s[0] != '0')
    ensures PassesCheck(bits, s) <==> Value(s) < Modulus(bits)
  {
    hide Value, MaxString, Modulus, Pow10;
    WidthFacts(bits);
    assert s[..|s|] == s;
    if PassesCheck(bits, s) {
      PrefixFits(bits, s, |s|);
    } else if |s| == SafeDigits(bits) + 1 {
      LexIsNumeric(s, MaxString(bits));
    } else {
      ValueBounds(s);
      ValueBounds(MaxString(bits));
      Pow10Monotone(SafeDigits(bits) + 1, |s| - 1);
    }
  }

  // ----- What a string means -----

  /** Sign and digits of a string; only signed types take a sign. */
  datatype Parts = Parts(negative: bool, digits: string)

  function Split(t: IntType, s: string): Parts {
    if t.signed && |s| > 0 && !IsDigit(s[0]) then Parts(s[0] == '-', s[1..]) else Parts(false, s)
  }

  predicate BadSign(t: IntType, s: string) {
    t.signed && |s| > 0 && !IsDigit(s[0]) && s[0] != '-' && s[0] != '+'
  }

  function Overflow(negative: bool): Code { if negative then NegativeOverflow else PositiveOverflow }

  /** The number the digits denote if the type can hold it, else an overflow code. */
  function Meaning(t: IntType, p: Parts): Result
    requires AllDigits(p.digits)
  {
    var v := if p.negative then -(Value(p.digits) as int) else Value(p.digits);
    if InRange(t, v) then Ok(v) else Err(Overflow(p.negative))
  }

  // ----- digits_to -----

  /** SignedValueHandler::finalize: the conversion to T wraps, and a result on the
      wrong side of zero is the sign of an overflow. */
  function Finalize(t: IntType, negative: bool, value: nat): (r: Result)
    requires ValidType(t) && value < Modulus(t.bits)
    ensures InRange(t, if negative then -(value as int) else value) && (t.signed || !negative) ==>
      r == Ok(if negative then -(value as int) else value)
    ensures !InRange(t, if negative then -(value as int) else value) && t.signed ==> r == Err(Overflow(negative))
  {
    Moduli();
    if !t.signed then Ok(value)
    else
      var m := Modulus(t.bits);
      var wrapped := if negative then (m - value) % m else value;
      var rv := if 2 * wrapped >= m then wrapped - m else wrapped;
      if negative && rv > 0 then Err(NegativeOverflow)
      else if !negative && rv < 0 then Err(PositiveOverflow)
      else Ok(rv)
  }

  /** One group of table look-ups and its out-of-range test. */
  lemma TableSum(t: string)
    requires 1 <= |t| <= 4
    ensures var sum :=
      (if |t| >= 4 then Shift(t[|t| - 4], 1000) else 0) + (if |t| >= 3 then Shift(t[|t| - 3], 100) else 0)
      + (if |t| >= 2 then Shift(t[|t| - 2], 10) else 0) + Shift(t[|t| - 1], 1);
      (sum < OOR <==> AllDigits(t)) && (AllDigits(t) ==> sum == Value(t))
  {
    if AllDigits(t) {
      FewDigits(t);
    } else {
      var i :| 0 <= i < |t| && !IsDigit(t[i]);
    }
  }

  /** The next `k` digits of a string that passed the check. */
  lemma PrefixStep(bits: nat, mem: string, b0: nat, b: nat, k: nat, e: nat)
    requires ValidBits(bits) && b0 <= b && b + k <= e <= |mem|
    requires PassesCheck(bits, mem[b0..e]) && AllDigits(mem[b0..b]) && AllDigits(mem[b..b + k])
    ensures AllDigits(mem[b0..b + k])
    ensures Value(mem[b0..b + k]) == Value(mem[b0..b]) * Pow10(k) + Value(mem[b..b + k]) < Modulus(bits)
  {
    hide Value, Modulus, MaxString, PassesCheck, Pow10;
    assert mem[b0..b + k] == mem[b0..b] + mem[b..b + k];
    ValueConcat(mem[b0..b], mem[b..b + k]);
    assert mem[b0..b + k] == mem[b0..e][..b + k - b0];
    PrefixFits(bits, mem[b0..e], b + k - b0);
  }

  lemma NonDigitWithin(mem: string, b0: nat, b: nat, k: nat, e: nat)
    requires b0 <= b && b + k <= e <= |mem| && !AllDigits(mem[b..b + k])
    ensures !AllDigits(mem[b0..e])
  {
    var i :| 0 <= i < k && !IsDigit(mem[b..b + k][i]);
    assert mem[b0..e][b - b0 + i] == mem[b..b + k][i];
  }

  /** A string with a group of four digits is not meant for an 8-bit type. */
  lemma FourDigitsFit(bits: nat, s: string)
    requires ValidBits(bits) && PassesCheck(bits, s) && |s| >= 4
    ensures 10000 < Modulus(bits)
  {
    Moduli();
  }

  /** Conversion to the unsigned type. */
  function Wrap(x: nat, m: nat): nat
    requires m > 0
  {
    x % m
  }

  lemma NoWrap(x: nat, m: nat)
    requires x < m
    ensures Wrap(x, m) == x
  {
  }

  /** The four-at-a-time digit loop, in the wrapping arithmetic of the unsigned type.
      On a string that passed the check nothing ever wraps. */
  method AccumulateFours(bits: nat, mem: string, b0: nat, e: nat) returns (ok: bool, result: nat, b: nat)
    requires ValidBits(bits) && b0 <= e <= |mem| && PassesCheck(bits, mem[b0..e])
    ensures ok ==> b0 <= b <= e < b + 4 && AllDigits(mem[b0..b]) && result == Value(mem[b0..b]) < Modulus(bits)
    ensures !ok ==> !AllDigits(mem[b0..e])
  {
    hide Value, Modulus, PassesCheck, Shift, Pow10, Wrap, AllDigits;
    var m := Modulus(bits);
    result, b := 0, b0;
    ConvPrint.SmallPowers();
    EmptyValue(mem[b0..b]);
    while e - b >= 4
      invariant b0 <= b <= e && AllDigits(mem[b0..b]) && result == Value(mem[b0..b]) < m
    {
      TableSum(mem[b..b + 4]);
      var sum := Shift(mem[b], 1000) + Shift(mem[b + 1], 100) + Shift(mem[b + 2], 10) + Shift(mem[b + 3], 1);
      if sum >= OOR {
        NonDigitWithin(mem, b0, b, 4, e);
        return false, result, b;
      }
      PrefixStep(bits, mem, b0, b, 4, e);
      FourDigitsFit(bits, mem[b0..e]);
      NoWrap(10000, m);
      NoWrap(result * 10000, m);
      NoWrap(sum, m);
      NoWrap(result * 10000 + sum, m);
      result := Wrap(result * Wrap(10000, m), m);
      result := Wrap(result + Wrap(sum, m), m);
      b := b + 4;
    }
    return true, result, b;
  }

  /** The digit loop and the switch over the one to three digits left. */
  method Accumulate(bits: nat, mem: string, b0: nat, e: nat) returns (r: Option<nat>)
    requires ValidBits(bits) && b0 <= e <= |mem| && PassesCheck(bits, mem[b0..e])
    ensures AllDigits(mem[b0..e]) ==> r == Some(Value(mem[b0..e])) && r.value < Modulus(bits)
    ensures !AllDigits(mem[b0..e]) ==> r == None
  {
    hide Value, Modulus, PassesCheck, Shift, Pow10, Wrap, AllDigits;
    var m := Modulus(bits);
    var ok, result, b := AccumulateFours(bits, mem, b0, e);
    if !ok {
      return None;
    }
    var left := e - b;
    if left == 0 {
      return Some(result);
    }
    TableSum(mem[b..e]);
    var sum := Shift(mem[e - 1], 1) + (if left >= 2 then Shift(mem[e - 2], 10) else 0)
               + (if left == 3 then Shift(mem[e - 3], 100) else 0);
    if sum >= OOR {
      NonDigitWithin(mem, b0, b, left, e);
      return None;
    }
    PrefixStep(bits, mem, b0, b, left, e);
    ConvPrint.SmallPowers();
    var scale := if left == 3 then 1000 else if left == 2 then 100 else 10;
    NoWrap(scale * result + sum, m);
    return Some(Wrap(scale * result + sum, m));
  }

  lemma EmptyValue(s: string)
    requires |s| == 0
    ensures AllDigits(s) && Value(s) == 0
  {
  }

  function StripZeros(s: string): (z: string)
    ensures |z| > 0 ==> z[0] != '0'
    ensures |z| <= |s|
  {
    if |s| > 0 && s[0] == '0' then StripZeros(s[1..]) else s
  }

  lemma {:induction false} StripZerosAt(s: string, k: nat)
    requires k <= |s| && forall i :: 0 <= i < k ==> s[i] == '0'
    ensures StripZeros(s) == StripZeros(s[k..])
  {
    if k > 0 {
      StripZerosAt(s[1..], k - 1);
      assert s[1..][k - 1..] == s[k..];
    } else {
      assert s[k..] == s;
    }
  }

  lemma {:induction false} StripZerosDigits(s: string)
    ensures AllDigits(StripZeros(s)) <==> AllDigits(s)
  {
    if |s| > 0 && s[0] == '0' {
      StripZerosDigits(s[1..]);
      assert AllDigits(s[1..]) <==> AllDigits(s) by {
        assert forall i :: 1 <= i < |s| ==> s[1..][i - 1] == s[i];
        assert s == [s[0]] + s[1..];
      }
    }
  }

  lemma StripZerosValue(s: string)
    requires AllDigits(s)
    ensures AllDigits(StripZeros(s)) && Value(StripZeros(s)) == Value(s)
    decreases |s|
  {
    hide Value, Pow10;
    StripZerosDigits(s);
    if |s| > 0 && s[0] == '0' {
      FirstDigit(s);
      StripZerosValue(s[1..]);
    }
  }

  /** What digits_to answers for a non-empty string: the number if the type can hold
      it, and otherwise the error that says why not. */
  function DigitsMeaning(t: IntType, s: string): Result {
    var p := Split(t, s);
    if BadSign(t, s) then Err(InvalidLeadingChar)
    else if |p.digits| == 0 then Err(NoDigits)
    else if AllDigits(p.digits) then Meaning(t, p)
    else if PassesCheck(t.bits, StripZeros(p.digits)) then Err(NonDigitChar)
    else Err(Overflow(p.negative))
  }

  method SkipZeros(mem: string, b0: nat, e: nat) returns (b: nat)
    requires b0 <= e <= |mem|
    ensures b0 <= b <= e && mem[b..e] == StripZeros(mem[b0..e])
  {
    b := b0;
    while b < e && mem[b] == '0'
      invariant b0 <= b <= e && forall i :: b0 <= i < b ==> mem[i] == '0'
    {
      b := b + 1;
    }
    StripZerosAt(mem[b0..e], b - b0);
    assert mem[b0..e][b - b0..] == mem[b..e];
  }

  /** A string that passed the check, summed up and given its sign. */
  lemma FinalMeaning(t: IntType, p: Parts)
    requires ValidType(t) && AllDigits(p.digits) && (t.signed || !p.negative)
    ensures PassesCheck(t.bits, StripZeros(p.digits)) ==>
      Value(p.digits) < Modulus(t.bits) && Finalize(t, p.negative, Value(p.digits)) == Meaning(t, p)
    ensures !PassesCheck(t.bits, StripZeros(p.digits)) ==> Meaning(t, p) == Err(Overflow(p.negative))
  {
    hide Value, PassesCheck, Modulus, Finalize, AllDigits, StripZeros;
    StripZerosValue(p.digits);
    PassesIffFits(t.bits, StripZeros(p.digits));
  }

  lemma ShortPasses(bits: nat, s: string)
    requires |s| <= SafeDigits(bits)
    ensures PassesCheck(bits, s) && PassesCheck(bits, StripZeros(s))
  {
  }

  /** digits_to from the digits on, after the sign was read. */
  method Magnitude(t: IntType, negative: bool, mem: string, b0: nat, e: nat) returns (r: Result)
    requires ValidType(t) && b0 <= e <= |mem| && (t.signed || !negative)
    ensures b0 == e ==> r == Err(NoDigits)
    ensures b0 < e && AllDigits(mem[b0..e]) ==> r == Meaning(t, Parts(negative, mem[b0..e]))
    ensures !AllDigits(mem[b0..e]) ==>
      r == Err(if PassesCheck(t.bits, StripZeros(mem[b0..e])) then NonDigitChar else Overflow(negative))
  {
    hide Value, PassesCheck, Modulus, Finalize, AllDigits, StripZeros, Meaning, MaxString, LexGreater, SafeDigits;
    var b, size := b0, e - b0;
    ghost var s := mem[b0..e];
    if size == 0 {
      EmptyValue(s);
    }
    if AllDigits(s) {
      FinalMeaning(t, Parts(negative, s));
    }
    StripZerosDigits(s);
    if size > SafeDigits(t.bits) {
      if mem[b] == '0' {
        b := SkipZeros(mem, b0, e);
        if b == e {
          OnlyZeros(s);
          ZeroFits(t, Parts(negative, s));
          return Ok(0);
        }
        size := e - b;
      } else {
        NothingToStrip(s);
      }
      CheckAsWritten(t.bits, mem[b..e]);
      if size > SafeDigits(t.bits) &&
         (size != SafeDigits(t.bits) + 1 || LexGreater(mem[b..b + size], MaxString(t.bits))) {
        return Err(Overflow(negative));
      }
      if AllDigits(s) {
        StripZerosValue(s);
      }
    } else {
      ShortPasses(t.bits, s);
    }
    var sum := Accumulate(t.bits, mem, b, e);
    if sum.None? {
      return Err(NonDigitChar);
    }
    if size == 0 {
      return Err(NoDigits);
    }
    return Finalize(t, negative, sum.value);
  }

  lemma NothingToStrip(s: string)
    requires |s| > 0 && s[0] != '0'
    ensures StripZeros(s) == s
  {
  }

  /** The test the source writes is PassesCheck. */
  lemma CheckAsWritten(bits: nat, s: string)
    requires ValidBits(bits)
    ensures |MaxString(bits)| == SafeDigits(bits) + 1
    ensures PassesCheck(bits, s) <==>
      !(|s| > SafeDigits(bits) && (|s| != SafeDigits(bits) + 1 || LexGreater(s, MaxString(bits))))
  {
    WidthFacts(bits);
  }

  lemma OnlyZeros(s: string)
    requires |StripZeros(s)| == 0
    ensures AllDigits(s) && Value(s) == 0
  {
    hide Value, StripZeros, AllDigits;
    EmptyValue(StripZeros(s));
    StripZerosDigits(s);
    StripZerosValue(s);
  }

  lemma ZeroFits(t: IntType, p: Parts)
    requires AllDigits(p.digits) && Value(p.digits) == 0
    ensures Meaning(t, p) == Ok(0)
  {
    hide Value, AllDigits, Modulus;
  }

  /** digits_to for every integer type. `mem` is the memory the pointers range over:
      for a signed type the first character is read even when the string is empty. */
  method DigitsTo(t: IntType, mem: string, b0: nat, e: nat) returns (r: Result)
    requires ValidType(t) && b0 <= e <= |mem| && (t.signed ==> b0 < |mem|)
    ensures b0 < e ==> r == DigitsMeaning(t, mem[b0..e])
    ensures b0 == e ==> r.Err? && (!t.signed ==> r == Err(NoDigits))
  {
    hide Value, PassesCheck, Modulus, Finalize, AllDigits, StripZeros, Meaning;
    var b, negative := b0, false;
    if t.signed && !IsDigit(mem[b]) {
      if mem[b] == '-' {
        negative := true;
      } else if mem[b] != '+' {
        return Err(InvalidLeadingChar);
      }
      b := b + 1;
    }
    if b > e {
      // e - b is -1, which is the largest size_t
      return Err(Overflow(negative));
    }
    assert b0 < e ==> Split(t, mem[b0..e]) == Parts(negative, mem[b..e]);
    r := Magnitude(t, negative, mem, b, e);
    EmptyValue([]);
    assert b == e ==> mem[b..e] == [];
  }

  // ----- str_to_integral -----

  predicate IsSpace(c: char) { c == ' ' || '\t' <= c <= '\r' }

  /** How many characters at the front satisfy isspace, and how many are digits. */
  function Spaces(s: string): (n: nat)
    ensures n <= |s| && (n < |s| ==> !IsSpace(s[n]))
  {
    if |s| > 0 && IsSpace(s[0]) then 1 + Spaces(s[1..]) else 0
  }

  function DigitRun(s: string): (n: nat)
    ensures n <= |s| && (n < |s| ==> !IsDigit(s[n]))
    ensures forall i :: 0 <= i < n ==> IsDigit(s[i])
  {
    if |s| > 0 && IsDigit(s[0]) then 1 + DigitRun(s[1..]) else 0
  }

  /** White space, a sign if the type takes one, and the longest run of digits; the
      text after it, or the whole text when the answer is an error. */
  function Parse(t: IntType, s: string): (Result, string) {
    var b := Spaces(s);
    if b == |s| then (Err(EmptyInputString), s) else ParseNumber(t, s[b..], s)
  }

  /** The number at the front of `u`, what is left of the text `s`. */
  function ParseNumber(t: IntType, u: string, s: string): (Result, string) {
    if BadSign(t, u) then (Err(InvalidLeadingChar), s)
    else
      var p := Split(t, u);
      if |p.digits| == 0 then (Err(NoDigits), s)
      else
        var n := DigitRun(p.digits);
        if n == 0 then (Err(NonDigitChar), s)
        else
          var r := Meaning(t, Parts(p.negative, p.digits[..n]));
          (r, if r.Ok? then p.digits[n..] else s)
  }

  method FindFirstNonDigit(s: string, b0: nat) returns (b: nat)
    requires b0 <= |s|
    ensures b0 <= b == b0 + DigitRun(s[b0..])
  {
    b := b0;
    while b < |s|
      invariant b0 <= b <= |s| && DigitRun(s[b0..]) == b - b0 + DigitRun(s[b..])
    {
      assert s[b..][1..] == s[b + 1..];
      if !IsDigit(s[b]) {
        break;
      }
      b := b + 1;
    }
  }

  method SkipSpaces(s: string) returns (b: nat)
    ensures b == Spaces(s)
  {
    b := 0;
    while b < |s| && IsSpace(s[b])
      invariant b <= |s| && Spaces(s) == b + Spaces(s[b..])
    {
      assert s[b..][1..] == s[b + 1..];
      b := b + 1;
    }
  }

  lemma DigitRunAt(s: string, b: nat)
    requires b < |s|
    ensures DigitRun(s[b..]) == if IsDigit(s[b]) then 1 + DigitRun(s[b + 1..]) else 0
    ensures AllDigits(s[b..b + DigitRun(s[b..])])
  {
    assert s[b..][1..] == s[b + 1..];
  }

  /** Parsing as unsigned and then applying the sign loses nothing. */
  lemma UnsignedThenSign(t: IntType, negative: bool, digits: string)
    requires ValidType(t) && |digits| > 0 && AllDigits(digits) && (t.signed || !negative)
    ensures match DigitsMeaning(IntType(t.bits, false), digits)
            case Ok(v) => 0 <= v < Modulus(t.bits) && Finalize(t, negative, v) == Meaning(t, Parts(negative, digits))
            case Err(c) => c == PositiveOverflow && Meaning(t, Parts(negative, digits)) == Err(Overflow(negative))
  {
    hide Value, PassesCheck, Modulus, Finalize, AllDigits, StripZeros;
    FinalMeaning(IntType(t.bits, false), Parts(false, digits));
    FinalMeaning(t, Parts(negative, digits));
  }

  /** str_to_integral after the sign. */
  method ParseDigits(t: IntType, negative: bool, src: string, b: nat) returns (r: Result, rest: string)
    requires ValidType(t) && b < |src| && (t.signed || !negative)
    ensures var n := DigitRun(src[b..]);
      if n == 0 then r == Err(NonDigitChar) && rest == src
      else r == Meaning(t, Parts(negative, src[b..][..n])) && rest == (if r.Ok? then src[b..][n..] else src)
  {
    hide Value, PassesCheck, Modulus, Finalize, AllDigits, StripZeros, Meaning, DigitsMeaning, DigitRun;
    DigitRunAt(src, b);
    if !IsDigit(src[b]) {
      return Err(NonDigitChar), src;
    }
    var m := FindFirstNonDigit(src, b + 1);
    assert src[b..m] == src[b..][..m - b] && src[m..] == src[b..][m - b..];
    var unsigned := DigitsTo(IntType(t.bits, false), src, b, m);
    UnsignedThenSign(t, negative, src[b..m]);
    if unsigned.Err? {
      var code := unsigned.code;
      return Err(if code == PositiveOverflow then Overflow(negative) else code), src;
    }
    r := Finalize(t, negative, unsigned.value);
    rest := if r.Ok? then src[m..] else src;
  }

  method StrToIntegral(t: IntType, src: string) returns (r: Result, rest: string)
    requires ValidType(t)
    ensures (r, rest) == Parse(t, src)
  {
    hide Value, PassesCheck, Modulus, Finalize, AllDigits, StripZeros, Meaning, DigitsMeaning, DigitRun, Spaces;
    var b := SkipSpaces(src);
    if b >= |src| {
      return Err(EmptyInputString), src;
    }
    ghost var s := src[b..];
    var negative := false;
    if t.signed && !IsDigit(src[b]) {
      if src[b] == '-' {
        negative := true;
      } else if src[b] != '+' {
        return Err(InvalidLeadingChar), src;
      }
      assert s[1..] == src[b + 1..];
      b := b + 1;
    }
    assert Split(t, s) == Parts(negative, src[b..]);
    if t.signed && b >= |src| {
      return Err(NoDigits), src;
    }
    r, rest := ParseDigits(t, negative, src, b);
  }

  // ----- Round trips -----

  /** The most negative and the most positive value included. */
  lemma SignedDigitsMeaning(t: IntType, v: int)
    requires ValidType(t) && InRange(t, v)
    ensures DigitsMeaning(t, ConvPrint.SignedDigits(v)) == Ok(v)
  {
    hide Value, Digits, Modulus, PassesCheck, StripZeros;
    if v < 0 {
      ValueOfDigits(-v);
      assert ConvPrint.SignedDigits(v)[1..] == Digits(-v);
    } else {
      ValueOfDigits(v);
    }
  }

  lemma {:induction false} SpacesThen(white: string, s: string)
    requires (forall i :: 0 <= i < |white| ==> IsSpace(white[i])) && (|s| > 0 ==> !IsSpace(s[0]))
    ensures Spaces(white + s) == |white|
  {
    if |white| == 0 {
      assert white + s == s;
    } else {
      SpacesThen(white[1..], s);
      assert (white + s)[1..] == white[1..] + s;
    }
  }

  lemma {:induction false} DigitsThen(digits: string, s: string)
    requires AllDigits(digits) && (|s| > 0 ==> !IsDigit(s[0]))
    ensures DigitRun(digits + s) == |digits|
  {
    if |digits| == 0 {
      assert digits + s == s;
    } else {
      DigitsThen(digits[1..], s);
      assert (digits + s)[1..] == digits[1..] + s;
    }
  }

  lemma SplitPrinted(t: IntType, v: int, after: string)
    requires InRange(t, v)
    ensures var u := ConvPrint.SignedDigits(v) + after;
      && !BadSign(t, u) && Split(t, u) == Parts(v < 0, Digits(if v < 0 then -v else v) + after)
      && |u| > 0 && !IsSpace(u[0])
  {
    hide Digits, Modulus;
    var u := ConvPrint.SignedDigits(v) + after;
    if v < 0 {
      assert u[1..] == Digits(-v) + after;
    }
  }

  lemma NumberOfPrinted(t: IntType, v: int, after: string, s: string)
    requires ValidType(t) && InRange(t, v) && (|after| > 0 ==> !IsDigit(after[0]))
    ensures ParseNumber(t, ConvPrint.SignedDigits(v) + after, s) == (Ok(v), after)
  {
    hide Value, Digits, Modulus, DigitRun, Split, BadSign, ConvPrint.SignedDigits;
    var digits := Digits(if v < 0 then -v else v);
    SplitPrinted(t, v, after);
    DigitsThen(digits, after);
    ValueOfDigits(if v < 0 then -v else v);
    assert (digits + after)[..|digits|] == digits && (digits + after)[|digits|..] == after;
  }

  /** Parsing undoes printing, for every value of every type, with any white space
      before it and any text that does not go on with a digit after it. */
  lemma ParseOfPrinted(t: IntType, v: int, white: string, after: string)
    requires ValidType(t) && InRange(t, v)
    requires (forall i :: 0 <= i < |white| ==> IsSpace(white[i])) && (|after| > 0 ==> !IsDigit(after[0]))
    ensures Parse(t, white + ConvPrint.SignedDigits(v) + after) == (Ok(v), after)
  {
    hide InRange, ParseNumber, Spaces, Split, BadSign, ConvPrint.SignedDigits;
    var text := ConvPrint.SignedDigits(v) + after;
    assert white + ConvPrint.SignedDigits(v) + after == white + text;
    SplitPrinted(t, v, after);
    SpacesThen(white, text);
    assert (white + text)[|white|..] == text;
    NumberOfPrinted(t, v, after, white + text);
  }

  /** White space, a sign the type allows, and all the digits before `rest`. */
  predicate Reads(t: IntType, s: string, white: string, sign: string, digits: string, rest: string) {
    && s == white + sign + digits + rest && (forall i :: 0 <= i < |white| ==> IsSpace(white[i]))
    && (sign == "" || (t.signed && (sign == "+" || sign == "-"))) && |digits| > 0 && AllDigits(digits)
    && (|rest| > 0 ==> !IsDigit(rest[0]))
  }

  lemma Pieces(s: string, b: nat, sign: string, d: string, n: nat)
    requires b <= |s| && s[b..] == sign + d && n <= |d|
    ensures s == s[..b] + sign + d[..n] + d[n..]
  {
    assert d == d[..n] + d[n..];
    assert s == s[..b] + s[b..];
  }

  function SignText(t: IntType, u: string): string {
    if t.signed && |u| > 0 && !IsDigit(u[0]) then [u[0]] else ""
  }

  lemma SplitJoins(t: IntType, u: string)
    requires !BadSign(t, u)
    ensures u == SignText(t, u) + Split(t, u).digits
    ensures SignText(t, u) == "" || (t.signed && (SignText(t, u) == "+" || SignText(t, u) == "-"))
    ensures Split(t, u).negative <==> SignText(t, u) == "-"
  {
  }

  lemma ReadsParts(t: IntType, s: string)
    requires ValidType(t) && Parse(t, s).0.Ok?
    ensures var b := Spaces(s); var p := Split(t, s[b..]); var n := DigitRun(p.digits);
      && Reads(t, s, s[..b], SignText(t, s[b..]), p.digits[..n], Parse(t, s).1)
      && Parse(t, s).0 == Meaning(t, Parts(SignText(t, s[b..]) == "-", p.digits[..n]))
  {
    hide Value, Modulus, PassesCheck, StripZeros, DigitRun, Meaning, Spaces, SignText, Split, BadSign;
    var b := Spaces(s);
    var p := Split(t, s[b..]);
    var n := DigitRun(p.digits);
    SpacesAreSpaces(s);
    SplitJoins(t, s[b..]);
    Pieces(s, b, SignText(t, s[b..]), p.digits, n);
  }

  /** What was taken off the front of an accepted text denotes the value. */
  lemma ParsedTextMeans(t: IntType, s: string)
    requires ValidType(t) && Parse(t, s).0.Ok?
    ensures var (r, rest) := Parse(t, s);
      exists white, sign, digits :: Reads(t, s, white, sign, digits, rest)
        && r.value == (if sign == "-" then -(Value(digits) as int) else Value(digits)) && InRange(t, r.value)
  {
    hide Value, InRange, Parse, Spaces, DigitRun, SignText, Split;
    ReadsParts(t, s);
  }

  lemma {:induction false} SpacesAreSpaces(s: string)
    ensures forall i :: 0 <= i < Spaces(s) ==> IsSpace(s[i])
  {
    if |s| > 0 && IsSpace(s[0]) {
      SpacesAreSpaces(s[1..]);
      forall i | 0 <= i < Spaces(s) ensures IsSpace(s[i]) {
        if i > 0 {
          assert s[i] == s[1..][i - 1];
        }
      }
    }
  }

  // ----- Which texts get which answer -----

  /** isspace, character by character: blank, tab, line feed, vertical tab, form feed and
      carriage return. */
  lemma SpacesAre(c: char)
    ensures IsSpace(c) <==> c as int in {32, 9, 10, 11, 12, 13}
  {
  }

  /** The ranges of the types, in numbers. */
  lemma RangesAre(v: int)
    ensures InRange(IntType(8, true), v) <==> -128 <= v <= 127
    ensures InRange(IntType(16, true), v) <==> -32768 <= v <= 32767
    ensures InRange(IntType(32, true), v) <==> -2147483648 <= v <= 2147483647
    ensures InRange(IntType(64, true), v) <==> -9223372036854775808 <= v <= 9223372036854775807
    ensures InRange(IntType(8, false), v) <==> 0 <= v <= 255
    ensures InRange(IntType(16, false), v) <==> 0 <= v <= 65535
    ensures InRange(IntType(32, false), v) <==> 0 <= v <= 4294967295
    ensures InRange(IntType(64, false), v) <==> 0 <= v <= 18446744073709551615
    ensures InRange(IntType(128, false), v) <==> 0 <= v <= 340282366920938463463374607431768211455
    ensures InRange(IntType(128, true), v) <==>
      -170141183460469231731687303715884105728 <= v <= 170141183460469231731687303715884105727
  {
    hide Modulus;
    Moduli();
  }

  function SignedValue(sign: string, digits: string): int
    requires AllDigits(digits)
  {
    if sign == "-" then -(Value(digits) as int) else Value(digits)
  }

  /** The value if the type holds it, else the overflow of the sign. */
  function ValueOr(t: IntType, sign: string, digits: string): Result
    requires AllDigits(digits)
  {
    if InRange(t, SignedValue(sign, digits)) then Ok(SignedValue(sign, digits))
    else if sign == "-" then Err(NegativeOverflow)
    else Err(PositiveOverflow)
  }

  predicate SignFor(t: IntType, sign: string) {
    sign == "" || (t.signed && (sign == "+" || sign == "-"))
  }

  lemma SplitOfSign(t: IntType, sign: string, digits: string, rest: string)
    requires SignFor(t, sign) && |digits| > 0 && AllDigits(digits)
    ensures var u := sign + digits + rest;
      && !BadSign(t, u) && Split(t, u) == Parts(sign == "-", digits + rest) && |u| > 0 && !IsSpace(u[0])
  {
    var u := sign + digits + rest;
    if sign == "" {
      assert u == digits + rest;
    } else {
      assert u[1..] == digits + rest;
    }
  }

  /** Every text of white space, a sign the type takes, digits, and a rest that does not go
      on with a digit: its value and the rest, or the overflow of its sign and all of it. */
  lemma ReadTextParses(t: IntType, s: string, white: string, sign: string, digits: string, rest: string)
    requires ValidType(t) && Reads(t, s, white, sign, digits, rest)
    ensures Parse(t, s) == (ValueOr(t, sign, digits), if ValueOr(t, sign, digits).Ok? then rest else s)
  {
    hide Value, InRange, DigitRun, Spaces, Split, BadSign, IsSpace;
    var u := sign + digits + rest;
    assert s == white + u;
    SplitOfSign(t, sign, digits, rest);
    SpacesThen(white, u);
    assert s[|white|..] == u;
    DigitsThen(digits, rest);
    assert (digits + rest)[..|digits|] == digits && (digits + rest)[|digits|..] == rest;
  }

  /** Every other text, `u` being what follows its white space: the code, by its first
      characters; nothing is taken off. */
  lemma OtherTextsRefused(t: IntType, white: string, u: string)
    requires (forall i :: 0 <= i < |white| ==> IsSpace(white[i])) && (|u| > 0 ==> !IsSpace(u[0]))
    ensures var (r, rest) := Parse(t, white + u);
      && (r == Err(EmptyInputString) <==> u == "")
      && (r == Err(InvalidLeadingChar) <==>
            t.signed && |u| > 0 && !('0' <= u[0] <= '9') && u[0] != '+' && u[0] != '-')
      && (r == Err(NoDigits) <==> t.signed && (u == "+" || u == "-"))
      && (r == Err(NonDigitChar) <==>
            if t.signed then |u| > 1 && (u[0] == '+' || u[0] == '-') && !('0' <= u[1] <= '9')
            else |u| > 0 && !('0' <= u[0] <= '9'))
      && (r.Err? ==> rest == white + u)
  {
    hide Value, InRange, Spaces, IsSpace;
    SpacesThen(white, u);
    assert (white + u)[|white|..] == u;
    if t.signed && |u| > 1 && !IsDigit(u[0]) {
      assert u[1..][0] == u[1];
    }
  }

  /** The two lemmas above speak of all texts. */
  lemma EveryTextIsRead(t: IntType, white: string, u: string) returns (sign: string, digits: string, rest: string)
    requires (forall i :: 0 <= i < |white| ==> IsSpace(white[i])) && (|u| > 0 ==> !IsSpace(u[0]))
    requires u != "" && !(t.signed && !IsDigit(u[0]) && u[0] != '+' && u[0] != '-')
    requires t.signed && !IsDigit(u[0]) ==> |u| > 1 && IsDigit(u[1])
    requires !t.signed ==> IsDigit(u[0])
    ensures Reads(t, white + u, white, sign, digits, rest)
  {
    sign := if IsDigit(u[0]) then "" else u[..1];
    var d := u[|sign|..];
    digits, rest := DigitsFirst(d);
    hide IsSpace, IsDigit, AllDigits;
    assert u == sign + d;
    assert white + u == white + sign + digits + rest;
  }

  lemma DigitsFirst(d: string) returns (digits: string, rest: string)
    requires |d| > 0 && IsDigit(d[0])
    ensures d == digits + rest && |digits| > 0 && AllDigits(digits) && (|rest| > 0 ==> !IsDigit(rest[0]))
  {
    var n := DigitRun(d);
    digits, rest := d[..n], d[n..];
  }

  /** digits_to on a sign the type takes and digits: the value or the overflow of the sign. */
  lemma SignAndDigits(t: IntType, sign: string, digits: string)
    requires SignFor(t, sign) && |digits| > 0 && AllDigits(digits)
    ensures DigitsMeaning(t, sign + digits) == ValueOr(t, sign, digits)
  {
    hide Value, InRange, PassesCheck, StripZeros, Split, BadSign;
    SplitOfSign(t, sign, digits, "");
    assert sign + digits + "" == sign + digits && digits + "" == digits;
  }

  /** digits_to on any other string that is not empty. A non-digit among the digits is named
      as such unless the text behind the leading zeros is too long, or as long as the largest
      value and after it in the order of texts. */
  lemma OtherDigitsRefused(t: IntType, s: string)
    requires |s| > 0
    ensures var r := DigitsMeaning(t, s);
      && (r == Err(InvalidLeadingChar) <==> t.signed && !('0' <= s[0] <= '9') && s[0] != '+' && s[0] != '-')
      && (r == Err(NoDigits) <==> t.signed && (s == "+" || s == "-"))
  {
    hide Value, InRange, PassesCheck, StripZeros;
  }

  lemma NonDigitRefused(t: IntType, sign: string, tail: string)
    requires SignFor(t, sign) && |tail| > 0 && !AllDigits(tail) && (sign == "" ==> !t.signed || IsDigit(tail[0]))
    ensures DigitsMeaning(t, sign + tail) ==
      Err(if PassesCheck(t.bits, StripZeros(tail)) then NonDigitChar
          else if sign == "-" then NegativeOverflow else PositiveOverflow)
  {
    hide Value, InRange, PassesCheck, StripZeros;
    if sign == "" {
      assert sign + tail == tail;
    } else {
      assert (sign + tail)[1..] == tail;
    }
  }
}
