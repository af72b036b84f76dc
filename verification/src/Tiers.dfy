/** Match tiers: the general matcher, its ASCII form, and the letter prefilter. */
module Tiers {
  import opened Text
  import opened Matching
  import Subsequence

  datatype MatchRank =
    | Empty
    | Prefix
    | BoundarySubstring(start: nat)
    | Substring(start: nat)
    | Subsequence

  function Score(rank: MatchRank): nat {
    match rank
    case Empty => 0
    case Subsequence => 0
    case Substring(_) => 1
    case BoundarySubstring(_) => 2
    case Prefix => 3
  }

  predicate StartsWith(query: Str, low: Str) {
    MatchAt(query, low, 0)
  }

  /** `rank_match`, on a folded query. */
  function RankMatch(fold: Folding, query: Str, text: Str): Option<MatchRank> {
    var low := Fold(fold, text);
    if StartsWith(query, low) then Some(Prefix)
    else
      var boundary := FirstStart(query, low, text, true);
      if boundary.Some? then Some(BoundarySubstring(boundary.value))
      else
        var any := FirstStart(query, low, text, false);
        if any.Some? then Some(Substring(any.value))
        else if Subsequence.Match(query, low).Some? then Some(MatchRank.Subsequence)
        else None
  }

  /** `rank_match_ascii`: one subsequence pass rejects before the substring scans. */
  function RankMatchAscii(query: Str, text: Str): Option<MatchRank> {
    var low := Fold(AsciiLower, text);
    if StartsWith(query, low) then Some(Prefix)
    else if !IsSubsequence(query, low) then None
    else
      var boundary := FirstStart(query, low, text, true);
      if boundary.Some? then Some(BoundarySubstring(boundary.value))
      else
        var any := FirstStart(query, low, text, false);
        if any.Some? then Some(Substring(any.value)) else Some(MatchRank.Subsequence)
  }

  /** Both forms give the same tier and the same start. */
  lemma {:induction false} AsciiRankAgrees(fold: Folding, query: Str, text: Str)
    requires FoldsAscii(fold) && IsAscii(text) && query != []
    ensures RankMatchAscii(query, text) == RankMatch(fold, query, text)
  {
    FoldAscii(fold, text);
    var low := Fold(AsciiLower, text);
    StartsEmbed(query, low, text, true);
    StartsEmbed(query, low, text, false);
  }

  /** A contiguous match of any kind is a scattered one. */
  lemma {:induction false} StartsEmbed(query: Str, low: Str, text: Str, boundaryOnly: bool)
    requires |low| == |text|
    ensures FirstStart(query, low, text, boundaryOnly).Some? || MatchAt(query, low, 0) ==> IsSubsequence(query, low)
  {
    FirstStartIsFirst(query, low, text, boundaryOnly, 0);
    var first := FirstStart(query, low, text, boundaryOnly);
    if first.Some? {
      SubstringEmbeds(query, low, first.value);
    }
    if MatchAt(query, low, 0) {
      SubstringEmbeds(query, low, 0);
    }
  }

  /** A query is ranked exactly when its characters occur in order. */
  lemma {:induction false} RankedExactlyWhenEmbedded(fold: Folding, query: Str, text: Str)
    ensures RankMatch(fold, query, text).Some? <==> IsSubsequence(query, Fold(fold, text))
  {
    StartsEmbed(query, Fold(fold, text), text, true);
    StartsEmbed(query, Fold(fold, text), text, false);
  }

  /** What a tier says about the text: the highest tier that applies, at the first
      start it applies at. */
  lemma {:induction false} TierMeaning(fold: Folding, query: Str, text: Str)
    requires RankMatch(fold, query, text).Some?
    ensures var low := Fold(fold, text);
            match RankMatch(fold, query, text).value
            case Empty => false
            case Prefix => MatchAt(query, low, 0)
            case BoundarySubstring(s) =>
              !MatchAt(query, low, 0) && IsStart(query, low, text, true, s) && NoStart(query, low, text, true, 0, s)
            case Substring(s) =>
              && MatchAt(query, low, s) && NoStart(query, low, text, false, 0, s)
              && NoStart(query, low, text, true, 0, |text| + 1)
            case Subsequence => Embeds(query, low) && NoStart(query, low, text, false, 0, |text| + 1)
  {
    SubsequenceIsEmbedding(query, Fold(fold, text));
    FirstStartIsFirst(query, Fold(fold, text), text, true, 0);
    FirstStartIsFirst(query, Fold(fold, text), text, false, 0);
    if query == [] {
      assert MatchAt(query, Fold(fold, text), 0);
    }
  }

  // The letter prefilter.

  /** One bit per letter, in either case. */
  function LetterBit(c: Scalar): Scalar {
    var lower := AsciiLower(c);
    if 97 <= lower <= 122 then 1 << (lower - 97) else 0
  }

  /** The bits of every character of `s`. */
  function Mask(bit: Scalar -> Scalar, s: Str): Scalar {
    if s == [] then 0 else Mask(bit, s[..|s| - 1]) | bit(s[|s| - 1])
  }

  function LetterMask(s: Str): Scalar {
    Mask(LetterBit, s)
  }

  predicate Covers(mask: Scalar, bits: Scalar) {
    mask & bits == bits
  }

  lemma {:induction false} CoversBoth(mask: Scalar, a: Scalar, b: Scalar)
    requires Covers(mask, a) && Covers(mask, b)
    ensures Covers(mask, a | b)
  {
  }

  lemma {:induction false} OrCovers(mask: Scalar, more: Scalar, bits: Scalar)
    requires Covers(mask, bits) || more == bits
    ensures Covers(mask | more, bits)
  {
  }

  lemma {:induction false} MaskCoversItsBits(bit: Scalar -> Scalar, s: Str, i: nat)
    requires i < |s|
    ensures Covers(Mask(bit, s), bit(s[i]))
  {
    var n := |s| - 1;
    if i < n {
      MaskCoversItsBits(bit, s[..n], i);
    }
    OrCovers(Mask(bit, s[..n]), bit(s[n]), bit(s[i]));
  }

  lemma {:induction false} CoversAll(bit: Scalar -> Scalar, mask: Scalar, s: Str)
    requires forall i :: 0 <= i < |s| ==> Covers(mask, bit(s[i]))
    ensures Covers(mask, Mask(bit, s))
  {
    if s != [] {
      var n := |s| - 1;
      CoversAll(bit, mask, s[..n]);
      CoversBoth(mask, Mask(bit, s[..n]), bit(s[n]));
    }
  }

  lemma {:induction false} LetterBitOfLower(c: Scalar)
    ensures LetterBit(AsciiLower(c)) == LetterBit(c)
  {
    assert AsciiLower(AsciiLower(c)) == AsciiLower(c);
  }

  /** The prefilter rejects no text that the query embeds in. */
  lemma {:induction false} PrefilterIsSound(query: Str, text: Str, at: seq<nat>)
    requires Embedding(query, Fold(AsciiLower, text), at)
    ensures LetterMask(text) & LetterMask(query) == LetterMask(query)
  {
    forall i | 0 <= i < |query|
      ensures Covers(LetterMask(text), LetterBit(query[i]))
    {
      MaskCoversItsBits(LetterBit, text, at[i]);
      LetterBitOfLower(text[at[i]]);
    }
    CoversAll(LetterBit, LetterMask(text), query);
  }

  lemma {:induction false} LettersHaveTheirOwnBits(c: Scalar, d: Scalar)
    requires 97 <= c <= 122 && 97 <= d <= 122
    ensures LetterBit(c) != 0
    ensures c != d ==> LetterBit(d) & LetterBit(c) == 0
  {
  }

  lemma {:induction false} NoBitWithoutLetter(s: Str, c: Scalar)
    requires 97 <= c <= 122 && forall i :: 0 <= i < |s| ==> AsciiLower(s[i]) != c
    ensures LetterMask(s) & LetterBit(c) == 0
  {
    if s != [] {
      var n := |s| - 1;
      NoBitWithoutLetter(s[..n], c);
      var lower := AsciiLower(s[n]);
      LetterBitOfLower(s[n]);
      if 97 <= lower <= 122 {
        LettersHaveTheirOwnBits(c, lower);
      }
      OrMisses(LetterMask(s[..n]), LetterBit(s[n]), LetterBit(c));
    }
  }

  lemma {:induction false} OrMisses(a: Scalar, b: Scalar, bit: Scalar)
    requires a & bit == 0 && b & bit == 0
    ensures (a | b) & bit == 0
  {
  }

  lemma {:induction false} MissedBitIsMissed(mask: Scalar, bits: Scalar, bit: Scalar)
    requires mask & bit == 0 && Covers(bits, bit) && bit != 0
    ensures !Covers(mask, bits)
  {
  }

  lemma {:induction false} HasItsBit(s: Str, i: nat)
    requires i < |s| && 97 <= s[i] <= 122
    ensures Covers(LetterMask(s), LetterBit(s[i])) && LetterBit(s[i]) != 0
  {
    MaskCoversItsBits(LetterBit, s, i);
    LettersHaveTheirOwnBits(s[i], s[i]);
  }

  /** And it rejects every text that lacks a letter of the query, in either case. */
  lemma {:induction false} PrefilterRejects(query: Str, text: Str, i: nat)
    requires i < |query| && 97 <= query[i] <= 122
    requires forall j :: 0 <= j < |text| ==> AsciiLower(text[j]) != query[i]
    ensures !Covers(LetterMask(text), LetterMask(query))
  {
    NoBitWithoutLetter(text, query[i]);
    HasItsBit(query, i);
    MissedBitIsMissed(LetterMask(text), LetterMask(query), LetterBit(query[i]));
  }

  // The rank of one candidate, as the search computes it and as it should be.

  /** Whether the query takes the ASCII form. */
  predicate IsShortAscii(query: Str) {
    IsAscii(query) && |query| <= 32
  }

  /** The rank the search loop computes from the stored text and letters. */
  function CandidateRank(fold: Folding, query: Str, text: Str, letters: Scalar): Option<MatchRank> {
    if query == [] then Some(Empty)
    else if IsShortAscii(query) && IsAscii(text) then
      var ascii := Fold(AsciiLower, query);
      if letters & LetterMask(ascii) != LetterMask(ascii) then None else RankMatchAscii(ascii, text)
    else RankMatch(fold, Fold(fold, query), text)
  }

  /** The rank by definition. */
  function Rank(fold: Folding, query: Str, text: Str): Option<MatchRank> {
    if query == [] then Some(Empty) else RankMatch(fold, Fold(fold, query), text)
  }

  predicate Matches(fold: Folding, query: Str, text: Str) {
    Rank(fold, query, text).Some?
  }

  /** Neither the letter filter nor the ASCII form changes any candidate's rank. */
  lemma {:induction false} CandidateRankIsRank(fold: Folding, query: Str, text: Str)
    requires FoldsAscii(fold)
    ensures CandidateRank(fold, query, text, LetterMask(text)) == Rank(fold, query, text)
  {
    if query != [] && IsShortAscii(query) && IsAscii(text) {
      var ascii := Fold(AsciiLower, query);
      FoldAscii(fold, query);
      FoldAscii(fold, text);
      AsciiRankAgrees(fold, ascii, text);
      RankedExactlyWhenEmbedded(fold, ascii, text);
      if IsSubsequence(ascii, Fold(fold, text)) {
        SubsequenceIsEmbedding(ascii, Fold(AsciiLower, text));
        var at :| Embedding(ascii, Fold(AsciiLower, text), at);
        PrefilterIsSound(ascii, text, at);
      }
    }
  }

  /** Typing more never brings back a candidate: the ground for refining in place. */
  lemma {:induction false} LongerQueriesMatchLess(fold: Folding, query: Str, longer: Str, text: Str)
    requires query <= longer && Matches(fold, longer, text)
    ensures Matches(fold, query, text)
  {
    if query != [] {
      RankedExactlyWhenEmbedded(fold, Fold(fold, longer), text);
      RankedExactlyWhenEmbedded(fold, Fold(fold, query), text);
      assert Fold(fold, query) <= Fold(fold, longer);
      PrefixEmbeds(Fold(fold, query), Fold(fold, longer), Fold(fold, text));
    }
  }
}
