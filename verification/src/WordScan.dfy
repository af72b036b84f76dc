/** Word-at-a-time byte search (`zero_byte_mask`, `find_either_byte`).

    A 64-bit word is its eight little-endian bytes. Bitwise operators act on each
    byte, and `wrapping_sub` carries a borrow from byte to byte; `SubIsWrapping`
    ties that to subtraction modulo a power of 256. */
module WordScan {
  import opened Text

  predicate IsBytes(s: Str) {
    forall i :: 0 <= i < |s| ==> s[i] < 256
  }

  /** `word ^ (c * BYTE_WORD_ONES)`. */
  function XorEach(word: Str, c: Scalar): (r: Str)
    ensures |r| == |word|
  {
    seq(|word|, i requires 0 <= i < |word| => word[i] ^ c)
  }

  /** One byte of `word - BYTE_WORD_ONES`, and the borrow it leaves. */
  function SubByte(b: Scalar, borrow: bool): Scalar {
    (if borrow then b - 2 else b - 1) & 0xFF
  }

  predicate Borrows(b: Scalar, borrow: bool) {
    b < if borrow then 2 else 1
  }

  /** `word - BYTE_WORD_ONES`, byte by byte from the low end. */
  function SubOnes(word: Str, borrow: bool): (r: Str)
    ensures |r| == |word|
  {
    if word == [] then [] else [SubByte(word[0], borrow)] + SubOnes(word[1..], Borrows(word[0], borrow))
  }

  predicate BorrowsOut(word: Str, borrow: bool) {
    if word == [] then borrow else BorrowsOut(word[1..], Borrows(word[0], borrow))
  }

  function ZeroByteMask(word: Str): (r: Str)
    ensures |r| == |word|
  {
    seq(|word|, i requires 0 <= i < |word| => SubOnes(word, false)[i] & !word[i] & 0x80)
  }

  function Or(a: Str, b: Str): (r: Str)
    requires |a| == |b|
    ensures |r| == |a|
  {
    seq(|a|, i requires 0 <= i < |a| => a[i] | b[i])
  }

  /** `trailing_zeros() / 8`, or the length of a zero word. */
  function LowestByte(word: Str): (k: nat)
    ensures k <= |word|
    ensures forall i :: 0 <= i < k ==> word[i] == 0
    ensures k < |word| ==> word[k] != 0
  {
    if word == [] || word[0] != 0 then 0 else 1 + LowestByte(word[1..])
  }

  // Words as numbers.

  function Pow256(n: nat): (p: nat)
    ensures p > 0
  {
    if n == 0 then 1 else 256 * Pow256(n - 1)
  }

  function Value(word: Str): nat {
    if word == [] then 0 else (word[0] as int) + 256 * Value(word[1..])
  }

  function Ones(n: nat): nat {
    if n == 0 then 0 else 1 + 256 * Ones(n - 1)
  }

  lemma {:induction false} SubByteValue(b: Scalar, borrow: bool)
    requires b < 256
    ensures SubByte(b, borrow) as int ==
            (b as int) - 1 - Digit(borrow) + 256 * Digit(Borrows(b, borrow))
  {
  }

  function Digit(b: bool): nat {
    if b then 1 else 0
  }

  /** `SubOnes` is subtraction of the word of ones, wrapping at the top byte. */
  lemma {:induction false} SubIsWrapping(word: Str, borrow: bool)
    requires IsBytes(word)
    ensures Value(SubOnes(word, borrow)) ==
            Value(word) - Ones(|word|) - Digit(borrow) + (if BorrowsOut(word, borrow) then Pow256(|word|) else 0)
  {
    if word != [] {
      var b, rest, next := word[0], word[1..], Borrows(word[0], borrow);
      SubByteValue(b, borrow);
      SubIsWrapping(rest, next);
      assert SubOnes(word, borrow)[1..] == SubOnes(rest, next);
      Combine(b as int, SubByte(b, borrow) as int, Digit(borrow), Digit(next), Value(rest), Value(SubOnes(rest, next)),
              Ones(|rest|), if BorrowsOut(rest, next) then Pow256(|rest|) else 0);
    }
  }

  lemma {:induction false} Combine(b: int, d: int, borrow: int, next: int, v: int, r: int, ones: int, wrap: int)
    requires d == b - 1 - borrow + 256 * next && r == v - ones - next + wrap
    ensures d + 256 * r == (b + 256 * v) - (1 + 256 * ones) - borrow + 256 * wrap
  {
  }

  // The search.

  predicate Either(c: Scalar, first: Scalar, second: Scalar) {
    c == first || c == second
  }

  /** `r` is the first index of `s` that holds `first` or `second`, or none does. */
  predicate IsFirstOf(s: Str, first: Scalar, second: Scalar, r: Option<nat>) {
    match r
    case None => forall i :: 0 <= i < |s| ==> !Either(s[i], first, second)
    case Some(k) =>
      k < |s| && Either(s[k], first, second) && forall i :: 0 <= i < k ==> !Either(s[i], first, second)
  }

  /** A borrow can flag a byte above a true hit: byte 1 below is 0x01, not zero. */
  lemma {:induction false} BorrowSetsFalseFlags()
    ensures ZeroByteMask([0x00, 0x01])[1] == 0x80
  {
    assert SubOnes([0x00, 0x01], false)[1] == SubOnes([0x01], true)[0];
  }

  lemma {:induction false} NoBorrowBelowFirstZero(word: Str, i: nat)
    requires i < |word| && forall j :: 0 <= j < i ==> word[j] != 0
    ensures SubOnes(word, false)[i] == SubByte(word[i], false)
  {
    if i > 0 {
      assert !Borrows(word[0], false);
      NoBorrowBelowFirstZero(word[1..], i - 1);
    }
  }

  lemma {:induction false} FlagOfByte(b: Scalar)
    requires b < 256
    ensures SubByte(b, false) & !b & 0x80 == if b == 0 then 0x80 else 0
  {
  }

  lemma {:induction false} XorBytes(b: Scalar, c: Scalar)
    requires b < 256 && c < 256
    ensures b ^ c < 256 && (b ^ c == 0 <==> b == c)
  {
  }

  /** Up to and including the first byte equal to `c`, the flags are exact. */
  lemma {:induction false} FlagsAreExactUpToTheFirst(chunk: Str, c: Scalar, i: nat)
    requires IsBytes(chunk) && c < 256 && i < |chunk|
    requires forall j :: 0 <= j < i ==> chunk[j] != c
    ensures ZeroByteMask(XorEach(chunk, c))[i] == if chunk[i] == c then 0x80 else 0
  {
    var word := XorEach(chunk, c);
    forall j | 0 <= j <= i
      ensures word[j] < 256 && (word[j] == 0 <==> chunk[j] == c)
    {
      XorBytes(chunk[j], c);
    }
    NoBorrowBelowFirstZero(word, i);
    FlagOfByte(word[i]);
  }

  function Matches(chunk: Str, first: Scalar, second: Scalar): (r: Str)
    ensures |r| == |chunk|
  {
    Or(ZeroByteMask(XorEach(chunk, first)), ZeroByteMask(XorEach(chunk, second)))
  }

  /** Below the first matching byte no flag is set, and at it one is. */
  lemma {:induction false} MatchesIsExactUpToTheFirst(chunk: Str, first: Scalar, second: Scalar, i: nat)
    requires IsBytes(chunk) && first < 256 && second < 256 && i < |chunk|
    requires forall j :: 0 <= j < i ==> !Either(chunk[j], first, second)
    ensures Matches(chunk, first, second)[i] != 0 <==> Either(chunk[i], first, second)
  {
    FlagsAreExactUpToTheFirst(chunk, first, i);
    FlagsAreExactUpToTheFirst(chunk, second, i);
  }

  lemma {:induction false} LowestFlagIsFirstMatch(chunk: Str, first: Scalar, second: Scalar, i: nat)
    requires IsBytes(chunk) && first < 256 && second < 256
    requires i <= LowestByte(Matches(chunk, first, second))
    ensures forall j :: 0 <= j < i ==> !Either(chunk[j], first, second)
  {
    if i > 0 {
      LowestFlagIsFirstMatch(chunk, first, second, i - 1);
      MatchesIsExactUpToTheFirst(chunk, first, second, i - 1);
    }
  }

  /** Index of the first byte equal to `first` or `second`, eight bytes at a time. */
  method FindEitherByte(haystack: Str, first: Scalar, second: Scalar) returns (r: Option<nat>)
    requires IsBytes(haystack) && first < 256 && second < 256
    ensures IsFirstOf(haystack, first, second, r)
  {
    var index := 0;
    while 8 * index + 8 <= |haystack|
      invariant 0 <= 8 * index <= |haystack|
      invariant forall i :: 0 <= i < 8 * index ==> !Either(haystack[i], first, second)
    {
      var chunk := haystack[8 * index..8 * index + 8];
      assert forall i :: 8 * index <= i < 8 * index + 8 ==> haystack[i] == chunk[i - 8 * index];
      var lowest := LowestByte(Matches(chunk, first, second));
      LowestFlagIsFirstMatch(chunk, first, second, lowest);
      if lowest < 8 {
        MatchesIsExactUpToTheFirst(chunk, first, second, lowest);
        return Some(index * 8 + lowest);
      }
      index := index + 1;
    }
    var at := 8 * index;
    while at < |haystack|
      invariant 8 * index <= at <= |haystack|
      invariant forall i :: 0 <= i < at ==> !Either(haystack[i], first, second)
    {
      if Either(haystack[at], first, second) {
        return Some(at);
      }
      at := at + 1;
    }
    return None;
  }
}
