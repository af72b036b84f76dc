/** What it means for a query to match a text, and the scanners that decide it.

    A query is already folded to lower case. `low` is the folded text, and
    `text` the text itself, which only the word-boundary test reads. */
module Matching {
  import opened Text
  import opened WordScan

  // Contiguous matches.

  predicate MatchAt(query: Str, low: Str, start: nat) {
    start + |query| <= |low| && low[start..start + |query|] == query
  }

  predicate Allowed(text: Str, boundaryOnly: bool, start: nat)
    requires start <= |text|
  {
    !boundaryOnly || start == 0 || IsWordBoundary(text[start - 1])
  }

  predicate IsStart(query: Str, low: Str, text: Str, boundaryOnly: bool, start: nat)
    requires |low| == |text|
  {
    MatchAt(query, low, start) && Allowed(text, boundaryOnly, start)
  }

  /** The first allowed start at or after `from`. */
  function FirstStart(query: Str, low: Str, text: Str, boundaryOnly: bool, from: nat := 0): (r: Option<nat>)
    requires |low| == |text| && from <= |text| + 1
    decreases |text| + 1 - from
  {
    if from + |query| > |text| then None
    else if IsStart(query, low, text, boundaryOnly, from) then Some(from)
    else FirstStart(query, low, text, boundaryOnly, from + 1)
  }

  ghost predicate NoStart(query: Str, low: Str, text: Str, boundaryOnly: bool, from: nat, to: nat)
    requires |low| == |text|
  {
    forall s :: from <= s < to ==> !IsStart(query, low, text, boundaryOnly, s)
  }

  lemma {:induction false} FirstStartIsFirst(query: Str, low: Str, text: Str, boundaryOnly: bool, from: nat)
    requires |low| == |text| && from <= |text| + 1
    ensures match FirstStart(query, low, text, boundaryOnly, from)
            case None => NoStart(query, low, text, boundaryOnly, from, |text| + 1)
            case Some(s) =>
              from <= s && IsStart(query, low, text, boundaryOnly, s) && NoStart(query, low, text, boundaryOnly, from, s)
    decreases |text| + 1 - from
  {
    if from + |query| <= |text| && !IsStart(query, low, text, boundaryOnly, from) {
      FirstStartIsFirst(query, low, text, boundaryOnly, from + 1);
    }
  }

  lemma {:induction false} FirstStartIsUnique(query: Str, low: Str, text: Str, boundaryOnly: bool, r: Option<nat>)
    requires |low| == |text|
    requires r.None? ==> NoStart(query, low, text, boundaryOnly, 0, |text| + 1)
    requires r.Some? ==> IsStart(query, low, text, boundaryOnly, r.value)
    requires r.Some? ==> NoStart(query, low, text, boundaryOnly, 0, r.value)
    ensures FirstStart(query, low, text, boundaryOnly) == r
  {
    FirstStartIsFirst(query, low, text, boundaryOnly, 0);
  }

  // Scattered matches.

  /** `at` places every query character, in order, on an equal character of `low`. */
  ghost predicate Embedding(query: Str, low: Str, at: seq<nat>) {
    && |at| == |query|
    && (forall i :: 0 <= i < |at| ==> at[i] < |low| && low[at[i]] == query[i])
    && (forall i, j :: 0 <= i < j < |at| ==> at[i] < at[j])
  }

  ghost predicate Embeds(query: Str, low: Str) {
    exists at :: Embedding(query, low, at)
  }

  /** Greedy placement of `query[k..]` in `low[from..]`: as many characters as fit,
      each at the first place after its predecessor. */
  function Greedy(query: Str, low: Str, k: nat := 0, from: nat := 0): (at: seq<nat>)
    requires k <= |query| && from <= |low|
    ensures |at| <= |query| - k
    decreases |low| - from
  {
    if k == |query| || from == |low| then []
    else if low[from] == query[k] then [from] + Greedy(query, low, k + 1, from + 1)
    else Greedy(query, low, k, from + 1)
  }

  ghost predicate Places(query: Str, low: Str, k: nat, from: nat, at: seq<nat>) {
    && |at| <= |query| - k
    && (forall i :: 0 <= i < |at| ==> from <= at[i] < |low| && low[at[i]] == query[k + i])
    && (forall i, j :: 0 <= i < j < |at| ==> at[i] < at[j])
  }

  lemma {:induction false} GreedyPlaces(query: Str, low: Str, k: nat, from: nat)
    requires k <= |query| && from <= |low|
    ensures Places(query, low, k, from, Greedy(query, low, k, from))
    decreases |low| - from
  {
    if k < |query| && from < |low| {
      var k' := if low[from] == query[k] then k + 1 else k;
      GreedyPlaces(query, low, k', from + 1);
      var rest := Greedy(query, low, k', from + 1);
      if low[from] == query[k] {
        assert Places(query, low, k, from, [from] + rest);
      } else {
        assert Places(query, low, k, from, rest);
      }
    }
  }

  /** Whether `query[k..]` occurs in order in `low[from..]`. */
  predicate Completes(query: Str, low: Str, k: nat, from: nat)
    requires k <= |query| && from <= |low|
    decreases |low| - from
  {
    k == |query| ||
    (from < |low| && Completes(query, low, if low[from] == query[k] then k + 1 else k, from + 1))
  }

  /** Whether every query character occurs in order. */
  predicate IsSubsequence(query: Str, low: Str) {
    Completes(query, low, 0, 0)
  }

  lemma {:induction false} GreedyCompletes(query: Str, low: Str, k: nat, from: nat)
    requires k <= |query| && from <= |low|
    ensures Completes(query, low, k, from) <==> |Greedy(query, low, k, from)| == |query| - k
    decreases |low| - from
  {
    if k < |query| && from < |low| {
      GreedyCompletes(query, low, if low[from] == query[k] then k + 1 else k, from + 1);
    }
  }

  /** No embedding is ahead of the greedy one, so greedy fails only when all do. */
  lemma {:induction false} GreedyIsEarliest(query: Str, low: Str, k: nat, from: nat, at: seq<nat>)
    requires k <= |query| && from <= |low| && Embedding(query, low, at)
    requires k < |at| ==> from <= at[k]
    ensures |Greedy(query, low, k, from)| == |query| - k
    ensures forall i :: 0 <= i < |query| - k ==> Greedy(query, low, k, from)[i] <= at[k + i]
    decreases |low| - from
  {
    if k < |query| && from < |low| {
      GreedyIsEarliest(query, low, if low[from] == query[k] then k + 1 else k, from + 1, at);
    }
  }

  lemma {:induction false} GreedyEmbeds(query: Str, low: Str)
    requires IsSubsequence(query, low)
    ensures Embedding(query, low, Greedy(query, low))
  {
    GreedyCompletes(query, low, 0, 0);
    GreedyPlaces(query, low, 0, 0);
  }

  lemma {:induction false} SubsequenceIsEmbedding(query: Str, low: Str)
    ensures IsSubsequence(query, low) <==> Embeds(query, low)
  {
    if IsSubsequence(query, low) {
      GreedyEmbeds(query, low);
    }
    if Embeds(query, low) {
      var at :| Embedding(query, low, at);
      GreedyIsEarliest(query, low, 0, 0, at);
      GreedyCompletes(query, low, 0, 0);
    }
  }

  /** A longer query matches no more than a shorter one. */
  lemma {:induction false} PrefixEmbeds(query: Str, longer: Str, low: Str)
    requires query <= longer && IsSubsequence(longer, low)
    ensures IsSubsequence(query, low)
  {
    SubsequenceIsEmbedding(longer, low);
    var at :| Embedding(longer, low, at);
    assert Embedding(query, low, at[..|query|]);
    SubsequenceIsEmbedding(query, low);
  }

  /** A contiguous match is a scattered one. */
  lemma {:induction false} SubstringEmbeds(query: Str, low: Str, start: nat)
    requires MatchAt(query, low, start)
    ensures IsSubsequence(query, low)
  {
    var at := seq(|query|, i requires 0 <= i < |query| => start + i);
    assert forall i :: 0 <= i < |query| ==> query[i] == low[start..start + |query|][i];
    assert Embedding(query, low, at);
    SubsequenceIsEmbedding(query, low);
  }

  // Scanners.

  /** Compares the query with the folded text at `start`, from character `from` on. */
  method MatchesAt(query: Str, text: Str, start: nat, fold: Folding, from: nat) returns (b: bool)
    requires start + |query| <= |text| && from <= |query|
    requires forall i :: 0 <= i < from ==> fold(text[start + i]) == query[i]
    ensures b == MatchAt(query, Fold(fold, text), start)
  {
    ghost var low := Fold(fold, text);
    for offset := from to |query|
      invariant forall i :: 0 <= i < offset ==> low[start + i] == query[i]
    {
      if fold(text[start + offset]) != query[offset] {
        assert low[start..start + |query|][offset] != query[offset];
        return false;
      }
    }
    assert low[start..start + |query|] == query;
    return true;
  }

  /** Tests one start. */
  method StartsAt(query: Str, text: Str, boundaryOnly: bool, start: nat, fold: Folding, from: nat) returns (b: bool)
    requires start + |query| <= |text| && from <= |query|
    requires forall i :: 0 <= i < from ==> fold(text[start + i]) == query[i]
    ensures b == IsStart(query, Fold(fold, text), text, boundaryOnly, start)
    ensures !b ==> NoStart(query, Fold(fold, text), text, boundaryOnly, start, start + 1)
  {
    if start == 0 || IsWordBoundary(text[start - 1]) || !boundaryOnly {
      b := MatchesAt(query, text, start, fold, from);
    } else {
      b := false;
    }
  }

  /** `find_substring_icase` and `find_substring_icase_ascii`: test every start. */
  method FindSubstring(query: Str, text: Str, boundaryOnly: bool, fold: Folding) returns (r: Option<nat>)
    ensures r == FirstStart(query, Fold(fold, text), text, boundaryOnly)
  {
    ghost var low := Fold(fold, text);
    r := None;
    var start := 0;
    while start + |query| <= |text|
      invariant start <= |text| + 1 && NoStart(query, low, text, boundaryOnly, 0, start)
    {
      var found := StartsAt(query, text, boundaryOnly, start, fold, 0);
      if found {
        r := Some(start);
        break;
      }
      start := start + 1;
    }
    FirstStartIsUnique(query, low, text, boundaryOnly, r);
  }

  predicate IsLowered(query: Str) {
    forall i :: 0 <= i < |query| ==> AsciiLower(query[i]) == query[i]
  }

  /** The first of `text[from..to]` that folds to `byte`: the word scan for the
      byte and its upper case. */
  method NextByte(text: Str, from: nat, to: nat, byte: Scalar) returns (r: Option<nat>)
    requires IsAscii(text) && from <= to <= |text| && byte < 128 && AsciiLower(byte) == byte
    ensures r.None? ==> forall i :: from <= i < to ==> AsciiLower(text[i]) != byte
    ensures r.Some? ==> from <= r.value < to && AsciiLower(text[r.value]) == byte
    ensures r.Some? ==> forall i :: from <= i < r.value ==> AsciiLower(text[i]) != byte
  {
    var window := text[from..to];
    var found := FindEitherByte(window, byte, AsciiUpper(byte));
    forall i | from <= i < to
      ensures text[i] == window[i - from]
      ensures AsciiLower(text[i]) == byte <==> Either(window[i - from], byte, AsciiUpper(byte))
    {
      AsciiCaseFacts(text[i], byte);
    }
    r := if found.None? then None else Some(from + found.value);
  }

  lemma {:induction false} FirstByteOfMatch(query: Str, low: Str, s: nat)
    requires query != [] && MatchAt(query, low, s)
    ensures low[s] == query[0]
  {
    assert low[s..s + |query|][0] == low[s];
  }

  /** The next place the query can start: no match is skipped. */
  method NextCandidate(query: Str, text: Str, boundaryOnly: bool, start: nat) returns (next: nat)
    requires query != [] && IsAscii(query) && IsLowered(query) && IsAscii(text) && start + |query| <= |text|
    ensures start <= next && NoStart(query, Fold(AsciiLower, text), text, boundaryOnly, start, next)
    ensures next + |query| <= |text| ==> AsciiLower(text[next]) == query[0]
    ensures next + |query| > |text| ==> next == |text| + 1
  {
    var low := Fold(AsciiLower, text);
    var jump := NextByte(text, start, |text| - |query| + 1, query[0]);
    next := if jump.Some? then jump.value else |text| + 1;
    forall s | start <= s < next
      ensures !IsStart(query, low, text, boundaryOnly, s)
    {
      if MatchAt(query, low, s) {
        FirstByteOfMatch(query, low, s);
        assert false;
      }
    }
  }

  lemma {:induction false} NoStartJoins(query: Str, low: Str, text: Str, boundaryOnly: bool, from: nat, mid: nat, to: nat)
    requires |low| == |text| && from <= mid <= to
    requires NoStart(query, low, text, boundaryOnly, from, mid) && NoStart(query, low, text, boundaryOnly, mid, to)
    ensures NoStart(query, low, text, boundaryOnly, from, to)
  {
  }

  /** `find_substring_icase_ascii_bytes`: jump between occurrences of the first byte. */
  method FindSubstringAsciiBytes(query: Str, text: Str, boundaryOnly: bool) returns (r: Option<nat>)
    requires query != [] && IsAscii(query) && IsLowered(query) && IsAscii(text)
    ensures r == FirstStart(query, Fold(AsciiLower, text), text, boundaryOnly)
  {
    ghost var low := Fold(AsciiLower, text);
    r := None;
    var start := 0;
    while start + |query| <= |text|
      invariant 0 <= start <= |text| + 1 && NoStart(query, low, text, boundaryOnly, 0, start)
    {
      var next := NextCandidate(query, text, boundaryOnly, start);
      NoStartJoins(query, low, text, boundaryOnly, 0, start, next);
      start := next;
      if start + |query| > |text| {
        break;
      }
      var found := StartsAt(query, text, boundaryOnly, start, AsciiLower, 1);
      if found {
        r := Some(start);
        break;
      }
      NoStartJoins(query, low, text, boundaryOnly, 0, start, start + 1);
      start := start + 1;
    }
    FirstStartIsUnique(query, low, text, boundaryOnly, r);
  }

  lemma {:induction false} CompletesSkips(query: Str, low: Str, k: nat, from: nat, to: nat)
    requires k < |query| && from <= to <= |low|
    requires forall i :: from <= i < to ==> low[i] != query[k]
    ensures Completes(query, low, k, from) == Completes(query, low, k, to)
    decreases |low| - from
  {
    if from < to {
      CompletesSkips(query, low, k, from + 1, to);
    }
  }

  /** `is_subsequence_ascii_bytes`: a next-byte test before each word scan. */
  method IsSubsequenceAsciiBytes(query: Str, text: Str) returns (found: bool)
    requires IsAscii(query) && IsLowered(query) && IsAscii(text)
    ensures found == IsSubsequence(query, Fold(AsciiLower, text))
  {
    ghost var low := Fold(AsciiLower, text);
    var from := 0;
    for k := 0 to |query|
      invariant 0 <= from <= |text|
      invariant IsSubsequence(query, low) == Completes(query, low, k, from)
    {
      if from < |text| && (text[from] == query[k] || text[from] == AsciiUpper(query[k])) {
        AsciiCaseFacts(text[from], query[k]);
        from := from + 1;
      } else {
        var position := NextByte(text, from, |text|, query[k]);
        if position.None? {
          CompletesSkips(query, low, k, from, |text|);
          return false;
        }
        CompletesSkips(query, low, k, from, position.value);
        from := position.value + 1;
      }
    }
    return true;
  }
}
