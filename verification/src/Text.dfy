/** Shared vocabulary: optional values and text as Unicode scalar values.

    A string is a sequence of scalar values. The bytes of an ASCII string are
    its scalar values, so code that runs on `as_bytes()` of an ASCII string runs
    here on the string itself. */
module Text {

  datatype Option<+T> = None | Some(value: T)

  /** A Unicode scalar value, or a byte when it is below 256. */
  type Scalar = bv32

  type Str = seq<Scalar>

  predicate IsAscii(s: Str) {
    forall i :: 0 <= i < |s| ==> s[i] < 128
  }

  function AsciiLower(c: Scalar): Scalar {
    if 65 <= c <= 90 then c + 32 else c
  }

  function AsciiUpper(c: Scalar): Scalar {
    if 97 <= c <= 122 then c - 32 else c
  }

  /** The first scalar of a character's Unicode lowercase form. The Unicode
      table is a parameter of the model; only its ASCII part is fixed. */
  type Folding = Scalar -> Scalar

  ghost predicate FoldsAscii(fold: Folding) {
    forall c: Scalar | c < 128 :: fold(c) == AsciiLower(c)
  }

  /** A string with every scalar folded. */
  function Fold(fold: Folding, s: Str): (r: Str)
    ensures |r| == |s|
    ensures forall i :: 0 <= i < |s| ==> r[i] == fold(s[i])
  {
    seq(|s|, i requires 0 <= i < |s| => fold(s[i]))
  }

  /** The characters before which a word may start. */
  predicate IsWordBoundary(c: Scalar) {
    c == 0x2F || c == 0x2D || c == 0x5F || c == 0x2E || c == 0x20 || c == 0x09
  }

  lemma {:induction false} AsciiCaseFacts(c: Scalar, q: Scalar)
    requires AsciiLower(q) == q
    ensures AsciiLower(c) == q <==> c == q || c == AsciiUpper(q)
  {
  }

  lemma {:induction false} FoldAscii(fold: Folding, s: Str)
    requires FoldsAscii(fold) && IsAscii(s)
    ensures Fold(fold, s) == Fold(AsciiLower, s)
    ensures IsAscii(Fold(fold, s))
  {
  }
}
