/** basic_fbstring::find (libs/folly/folly/FBString.h): a search that compares the
    last character first and skips ahead by a distance computed on first need. */
module FbStringFind {

  /** size_t arithmetic is modulo this. */
  const SIZE_LIMIT: nat := 0x1_0000_0000_0000_0000
  const NPOS: nat := SIZE_LIMIT - 1

  /** The needle stands at position `i`. */
  ghost predicate Occurs<E>(haystack: seq<E>, needle: seq<E>, i: nat) {
    i + |needle| <= |haystack| && haystack[i..i + |needle|] == needle
  }

  /** No occurrence starts in [from, to). */
  ghost predicate NoneIn<E>(haystack: seq<E>, needle: seq<E>, from: nat, to: nat) {
    forall i: nat :: from <= i < to ==> !Occurs(haystack, needle, i)
  }

  /** `skip` is the distance from the needle's last character back to its
      previous occurrence, or the needle's length if there is none. */
  ghost predicate IsSkip<E>(needle: seq<E>, skip: nat)
    requires |needle| > 0
  {
    var last := |needle| - 1;
    && 1 <= skip <= |needle|
    && (forall k :: last - skip < k < last ==> needle[k] != needle[last])
    && (skip <= last ==> needle[last - skip] == needle[last])
  }

  lemma MatchedCharacter<E>(haystack: seq<E>, needle: seq<E>, i: nat, j: nat)
    requires Occurs(haystack, needle, i) && j < |needle|
    ensures haystack[i + j] == needle[j]
  {
    assert haystack[i..i + |needle|][j] == needle[j];
  }

  /** A position whose last character is wrong is no occurrence. */
  lemma WrongCharacter<E>(haystack: seq<E>, needle: seq<E>, i: nat, j: nat)
    requires i + |needle| <= |haystack| && j < |needle| && haystack[i + j] != needle[j]
    ensures !Occurs(haystack, needle, i)
  {
    if Occurs(haystack, needle, i) {
      MatchedCharacter(haystack, needle, i, j);
    }
  }

  /** Where the needle's last character stands under `i`'s window, no occurrence
      starts within a skip behind `i`. */
  lemma SkipPassesNoMatch<E>(haystack: seq<E>, needle: seq<E>, i: nat, skip: nat)
    requires |needle| > 0 && IsSkip(needle, skip) && i + |needle| <= |haystack|
    requires haystack[i + |needle| - 1] == needle[|needle| - 1]
    ensures NoneIn(haystack, needle, i + 1, i + skip)
  {
    forall k: nat | i + 1 <= k < i + skip
      ensures !Occurs(haystack, needle, k)
    {
      if k + |needle| <= |haystack| {
        WrongCharacter(haystack, needle, k, |needle| - 1 - (k - i));
      }
    }
  }

  lemma NoneEmpty<E>(haystack: seq<E>, needle: seq<E>, from: nat)
    ensures NoneIn(haystack, needle, from, from)
  {
  }

  lemma NoneThrough<E>(haystack: seq<E>, needle: seq<E>, from: nat, mid: nat, to: nat)
    requires NoneIn(haystack, needle, from, mid) && NoneIn(haystack, needle, mid + 1, to)
    requires !Occurs(haystack, needle, mid)
    ensures NoneIn(haystack, needle, from, to)
  {
  }

  lemma NoneLeft<E>(haystack: seq<E>, needle: seq<E>, from: nat, to: nat)
    requires NoneIn(haystack, needle, from, to) && to + |needle| > |haystack|
    ensures forall i: nat :: i >= from ==> !Occurs(haystack, needle, i)
  {
  }

  /** The lazily computed skip value. */
  method ComputeSkip<E(==)>(needle: seq<E>) returns (skip: nat)
    requires |needle| > 0
    ensures skip >= 1 && IsSkip(needle, skip)
  {
    var last := |needle| - 1;
    skip := 1;
    while skip <= last && needle[last - skip] != needle[last]
      invariant 1 <= skip <= |needle|
      invariant forall k :: last - skip < k < last ==> needle[k] != needle[last]
    {
      skip := skip + 1;
    }
  }

  /** find(needle, pos, nsize): the least position at or after `pos` where the
      needle occurs, or npos if there is none; for any pos, npos included. */
  method Find<E(==)>(haystack: seq<E>, needle: seq<E>, pos: nat) returns (r: nat)
    requires |haystack| < NPOS && |needle| < SIZE_LIMIT && pos < SIZE_LIMIT
    ensures r == NPOS ==> forall i: nat :: i >= pos ==> !Occurs(haystack, needle, i)
    ensures r != NPOS ==> pos <= r && Occurs(haystack, needle, r) && NoneIn(haystack, needle, pos, r)
  {
    hide IsSkip, NoneIn;
    var size, nsize := |haystack|, |needle|;
    NoneEmpty(haystack, needle, pos);
    var sum := (nsize + pos) % SIZE_LIMIT;
    if sum > size || sum < pos {
      NoneLeft(haystack, needle, pos, pos);
      return NPOS;
    }
    assert nsize + pos <= size;
    if nsize == 0 {
      return pos;
    }
    var last := nsize - 1;
    var skip := 0;
    var i := pos;
    var iEnd := size - last;
    while i < iEnd
      invariant pos <= i
      invariant NoneIn(haystack, needle, pos, i)
      invariant skip == 0 || IsSkip(needle, skip)
    {
      ghost var start := i;
      while haystack[i + last] != needle[last]
        invariant start <= i < iEnd
        invariant NoneIn(haystack, needle, pos, i)
        decreases iEnd - i
      {
        WrongCharacter(haystack, needle, i, last);
        NoneEmpty(haystack, needle, i + 1);
        NoneThrough(haystack, needle, pos, i, i + 1);
        i := i + 1;
        if i == iEnd {
          NoneLeft(haystack, needle, pos, i);
          return NPOS;
        }
      }
      var j := 0;
      while haystack[i + j] == needle[j]
        invariant j < nsize
        invariant forall d :: 0 <= d < j ==> haystack[i + d] == needle[d]
        decreases nsize - j
      {
        j := j + 1;
        if j == nsize {
          assert haystack[i..i + nsize] == needle;
          return i;
        }
      }
      WrongCharacter(haystack, needle, i, j);
      if skip == 0 {
        skip := ComputeSkip(needle);
      }
      SkipPassesNoMatch(haystack, needle, i, skip);
      NoneThrough(haystack, needle, pos, i, i + skip);
      i := i + skip;
    }
    NoneLeft(haystack, needle, pos, i);
    return NPOS;
  }
}
