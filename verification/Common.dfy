/** Small definitions shared by the models: optional values, residues, counting
    and the bitwise "and" of natural numbers. */
module Common {

  datatype Option<+T> = None | Some(value: T)

  /** The position of ticket `k` in a ring of `n` slots, one lap at a time; it is
      the residue modulo `n` (`SlotIsResidue`). */
  function Slot(k: nat, n: nat): (r: nat)
    requires n > 0
    ensures r < n
    decreases k
  {
    if k < n then k else Slot(k - n, n)
  }

  lemma {:induction false} SlotIsResidue(k: nat, n: nat)
    requires n > 0
    ensures Slot(k, n) == k % n
    decreases k
  {
    if k < n {
      DivModUnique(k, n, 0, k);
    } else {
      SlotIsResidue(k - n, n);
      var q := (k - n) / n;
      assert k == (q + 1) * n + (k - n) % n;
      DivModUnique(k, n, q + 1, (k - n) % n);
    }
  }

  /** Tickets less than a lap apart use different slots. */
  lemma {:induction false} SlotDistinct(j: nat, k: nat, n: nat)
    requires n > 0 && j < k < j + n
    ensures Slot(j, n) != Slot(k, n)
    decreases j
  {
    if j >= n {
      SlotDistinct(j - n, k - n, n);
    }
  }

  lemma LapDistinct(k: nat, n: nat)
    requires n > 0
    ensures forall j: nat {:trigger Slot(j, n)} :: k < j < k + n || j < k < j + n ==> Slot(j, n) != Slot(k, n)
  {
    forall j: nat | k < j < k + n || j < k < j + n
      ensures Slot(j, n) != Slot(k, n)
    {
      if k < j { SlotDistinct(k, j, n); } else { SlotDistinct(j, k, n); }
    }
  }

  lemma MulLe(a: int, b: int, n: nat)
    requires a <= b
    ensures a * n <= b * n
  {
    assert b * n == a * n + (b - a) * n;
  }

  lemma DivModUnique(a: nat, n: nat, q: nat, r: nat)
    requires n > 0 && a == q * n + r && r < n
    ensures a / n == q && a % n == r
  {
    var q', r' := a / n, a % n;
    assert a == q' * n + r';
    if q < q' {
      MulLe(q + 1, q', n);
    } else if q' < q {
      MulLe(q' + 1, q, n);
    }
  }

  /** How many elements of `s` satisfy `p`. */
  function Count<T>(s: seq<T>, p: T -> bool): (c: nat)
    ensures c <= |s|
  {
    if |s| == 0 then 0 else (if p(s[0]) then 1 else 0) + Count(s[1..], p)
  }

  /** Replacing one element changes the count by that element's contribution. */
  lemma {:induction false} CountUpdate<T>(s: seq<T>, i: nat, x: T, p: T -> bool)
    requires i < |s|
    ensures Count(s[i := x], p) == Count(s, p) - (if p(s[i]) then 1 else 0) + (if p(x) then 1 else 0)
  {
    if i == 0 {
      assert s[i := x][1..] == s[1..];
    } else {
      assert s[i := x][1..] == s[1..][i - 1 := x];
      CountUpdate(s[1..], i - 1, x, p);
    }
  }

  /** A member that satisfies `p` makes the count positive. */
  lemma {:induction false} CountPositive<T>(s: seq<T>, i: nat, p: T -> bool)
    requires i < |s| && p(s[i])
    ensures Count(s, p) > 0
  {
    if i > 0 {
      CountPositive(s[1..], i - 1, p);
    }
  }

  /** A count over elements none of which satisfies `p` is zero. */
  lemma {:induction false} CountNone<T>(s: seq<T>, p: T -> bool)
    requires forall i :: 0 <= i < |s| ==> !p(s[i])
    ensures Count(s, p) == 0
  {
    if |s| > 0 {
      CountNone(s[1..], p);
    }
  }

  /** Bitwise "and" of two natural numbers. */
  function BitAnd(a: nat, b: nat): nat
    decreases a
  {
    if a == 0 || b == 0 then 0
    else (a % 2) * (b % 2) + 2 * BitAnd(a / 2, b / 2)
  }

  /** The size test `(n & (n - 1)) == 0` that the queue constructors use makes
      masking with `n - 1` the same as taking the residue modulo `n`. */
  lemma {:induction false} MaskIsResidue(x: nat, n: nat)
    requires n >= 1 && BitAnd(n, n - 1) == 0
    ensures BitAnd(x, n - 1) == x % n
    decreases n
  {
    if n > 1 {
      if n % 2 == 1 {
        AndOfOdd(n);
      }
      var h := n / 2;
      assert n == 2 * h && (n - 1) / 2 == h - 1 && (n - 1) % 2 == 1;
      assert BitAnd(h, h - 1) == 0;
      MaskIsResidue(x / 2, h);
      ResidueHalf(x, h);
      if x > 0 {
        assert BitAnd(x, n - 1) == x % 2 + 2 * BitAnd(x / 2, h - 1);
      }
    }
  }

  /** The residue modulo an even number, one bit at a time. */
  lemma ResidueHalf(x: nat, h: nat)
    requires h > 0
    ensures x % (2 * h) == x % 2 + 2 * ((x / 2) % h)
  {
    var q, r := (x / 2) / h, (x / 2) % h;
    assert x == 2 * (q * h + r) + x % 2;
    assert 2 * (q * h) == q * (2 * h);
    DivModUnique(x, 2 * h, q, 2 * r + x % 2);
  }

  /** An odd number above one shares a bit with its predecessor. */
  lemma {:induction false} AndOfOdd(n: nat)
    requires n > 1 && n % 2 == 1
    ensures BitAnd(n, n - 1) > 0
  {
    var h := n / 2;
    assert (n - 1) / 2 == h;
    AndSelf(h);
  }

  lemma {:induction false} AndSelf(n: nat)
    ensures BitAnd(n, n) == n
  {
    if n > 0 {
      AndSelf(n / 2);
    }
  }
}
