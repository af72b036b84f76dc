/** The tight-window subsequence matcher. `subsequence_match_ascii`,
    `subsequence_match_ascii_bytes` and `subsequence_match_unicode` are one
    algorithm over a folding; it is written once here. */
module Subsequence {
  import opened Text
  import opened Matching

  /** The positions array holds this many entries. */
  const RECORDED: nat := 32

  /** The last index above `after` that holds `c`, or `after`. */
  function LastOf(low: Str, c: Scalar, after: nat, e: nat): (r: nat)
    requires after < e <= |low|
    ensures after <= r < e && (r == after || low[r] == c)
    ensures forall i :: r < i < e ==> low[i] != c
  {
    if e == after + 1 then after else if low[e - 1] == c then e - 1 else LastOf(low, c, after, e - 1)
  }

  /** Backward scan of `low[..e]` for `query[..k]`: where its first character lands. */
  function Backward(query: Str, low: Str, k: nat, e: nat): nat
    requires 1 <= k <= |query| && e <= |low|
  {
    if e == 0 then 0
    else if low[e - 1] != query[k - 1] then Backward(query, low, k, e - 1)
    else if k == 1 then e - 1
    else Backward(query, low, k - 1, e - 1)
  }

  function FirstEnd(query: Str, low: Str): (r: nat)
    requires query != [] && IsSubsequence(query, low)
    ensures r < |low|
  {
    GreedyEmbeds(query, low);
    Greedy(query, low)[|query| - 1]
  }

  /** The chosen window, first and last index. */
  function Window(query: Str, low: Str): (w: (nat, nat))
    requires query != [] && IsSubsequence(query, low)
    ensures w.1 < |low|
  {
    var firstEnd := FirstEnd(query, low);
    var lastEnd := LastOf(low, query[|query| - 1], firstEnd, |low|);
    var start1 := Backward(query, low, |query|, firstEnd + 1);
    var start2 := Backward(query, low, |query|, lastEnd + 1);
    if lastEnd - start2 < firstEnd - start1 then (start2, lastEnd) else (start1, firstEnd)
  }

  /** The placement inside the window. */
  function Placement(query: Str, low: Str): seq<nat>
    requires query != [] && IsSubsequence(query, low)
  {
    var (start, end) := Window(query, low);
    if start <= end then Greedy(query, low[..end + 1], 0, start) else []
  }

  /** What the matcher returns: the recorded positions. */
  function Match(query: Str, low: Str): Option<seq<nat>> {
    if query == [] then Some([])
    else if !IsSubsequence(query, low) then None
    else
      var at := Placement(query, low);
      Some(if |at| <= RECORDED then at else at[..RECORDED])
  }

  /** Every embedding that ends before `e` starts no later than the backward scan,
      which is itself the start of one: `best`. */
  lemma {:induction false} BackwardIsLatest(query: Str, low: Str, k: nat, e: nat, at: seq<nat>) returns (best: seq<nat>)
    requires 1 <= k <= |query| && e <= |low| && Embedding(query[..k], low, at) && at[k - 1] < e
    ensures Embedding(query[..k], low, best) && best[k - 1] < e
    ensures best[0] == Backward(query, low, k, e) >= at[0]
    decreases e
  {
    if low[e - 1] != query[k - 1] {
      assert at[k - 1] != e - 1 by {
        assert query[..k][k - 1] == query[k - 1];
      }
      best := BackwardIsLatest(query, low, k, e - 1, at);
    } else if k == 1 {
      best := [e - 1];
    } else {
      var front := at[..k - 1];
      assert Embedding(query[..k - 1], low, front);
      best := BackwardIsLatest(query, low, k - 1, e - 1, front);
      best := best + [e - 1];
    }
  }

  lemma {:induction false} EndpointWindow(query: Str, low: Str, end: nat, at: seq<nat>)
    requires query != [] && end < |low| && Embedding(query, low, at) && at[|query| - 1] <= end
    ensures Backward(query, low, |query|, end + 1) <= end
    ensures Embedding(query, low, Greedy(query, low[..end + 1], 0, Backward(query, low, |query|, end + 1)))
    ensures Greedy(query, low[..end + 1], 0, Backward(query, low, |query|, end + 1))[0] ==
            Backward(query, low, |query|, end + 1)
    ensures Greedy(query, low[..end + 1], 0, Backward(query, low, |query|, end + 1))[|query| - 1] <= end
    ensures at[0] <= Backward(query, low, |query|, end + 1)
  {
    assert query[..|query|] == query;
    var best := BackwardIsLatest(query, low, |query|, end + 1, at);
    assert best[0] <= best[|query| - 1];
    assert Embedding(query, low[..end + 1], best);
    GreedyIsEarliest(query, low[..end + 1], 0, best[0], best);
    GreedyPlaces(query, low[..end + 1], 0, best[0]);
  }

  lemma {:induction false} EndpointPlacement(query: Str, low: Str, end: nat, at: seq<nat>, start: nat, placed: seq<nat>)
    requires query != [] && end < |low| && Embedding(query, low, at) && at[|query| - 1] <= end
    requires start == Backward(query, low, |query|, end + 1)
    requires placed == if start <= end then Greedy(query, low[..end + 1], 0, start) else []
    ensures Embedding(query, low, placed) && start == placed[0] <= placed[|query| - 1] <= end
  {
    EndpointWindow(query, low, end, at);
  }

  lemma {:induction false} BackwardStaysBehind(query: Str, low: Str, end: nat)
    requires query != [] && IsSubsequence(query, low) && FirstEnd(query, low) <= end < |low|
    ensures Backward(query, low, |query|, end + 1) <= end
  {
    GreedyEmbeds(query, low);
    EndpointWindow(query, low, end, Greedy(query, low));
  }

  /** The matcher succeeds exactly when the query embeds. */
  lemma {:induction false} MatchSucceeds(query: Str, low: Str)
    ensures Match(query, low).Some? <==> Embeds(query, low)
  {
    SubsequenceIsEmbedding(query, low);
    if query == [] {
      assert Embedding(query, low, []);
    }
  }

  /** The earliest end of any embedding. */
  lemma {:induction false} FirstEndIsEarliest(query: Str, low: Str, other: seq<nat>)
    requires query != [] && Embedding(query, low, other)
    ensures IsSubsequence(query, low) && FirstEnd(query, low) <= other[|query| - 1]
  {
    SubsequenceIsEmbedding(query, low);
    GreedyIsEarliest(query, low, 0, 0, other);
  }

  lemma {:induction false} WindowOfEnd(query: Str, low: Str) returns (greedy: seq<nat>)
    requires query != [] && IsSubsequence(query, low)
    ensures var (start, end) := Window(query, low);
            && start == Backward(query, low, |query|, end + 1)
            && Embedding(query, low, greedy) && greedy[|query| - 1] <= end
  {
    GreedyEmbeds(query, low);
    greedy := Greedy(query, low);
  }

  /** The placement is an embedding inside the window, from its first index on. */
  lemma {:induction false} PlacementIsEmbedding(query: Str, low: Str)
    requires query != [] && IsSubsequence(query, low)
    ensures var (start, end) := Window(query, low);
            var at := Placement(query, low);
            Embedding(query, low, at) && start == at[0] <= at[|query| - 1] <= end
  {
    var greedy := WindowOfEnd(query, low);
    var (start, end) := Window(query, low);
    EndpointPlacement(query, low, end, greedy, start, Placement(query, low));
  }

  /** No embedding that ends within the window starts after the window does. */
  lemma {:induction false} WindowStartIsLatest(query: Str, low: Str, other: seq<nat>)
    requires query != [] && IsSubsequence(query, low)
    requires Embedding(query, low, other) && other[|query| - 1] <= Window(query, low).1
    ensures other[0] <= Window(query, low).0
  {
    var greedy := WindowOfEnd(query, low);
    EndpointWindow(query, low, Window(query, low).1, other);
  }

  /** The window is no wider than that of the earliest end, nor than that of the
      last occurrence of the last query character. */
  lemma {:induction false} WindowIsNarrowest(query: Str, low: Str, end: nat)
    requires query != [] && IsSubsequence(query, low)
    requires end == FirstEnd(query, low) || end == LastOf(low, query[|query| - 1], FirstEnd(query, low), |low|)
    ensures Window(query, low).1 - Window(query, low).0 <= end - Backward(query, low, |query|, end + 1)
  {
  }

  /** The window is no wider than any embedding that ends where the earliest one does, nor
      than any that ends at the last occurrence of the query's last character. */
  lemma {:induction false} WindowBeatsEndpoints(query: Str, low: Str, other: seq<nat>)
    requires query != [] && Embedding(query, low, other)
    requires (forall e :: Embedding(query, low, e) ==> other[|query| - 1] <= e[|query| - 1])
             || (forall i :: other[|query| - 1] < i < |low| ==> low[i] != query[|query| - 1])
    ensures IsSubsequence(query, low)
    ensures Window(query, low).1 - Window(query, low).0 <= other[|query| - 1] - other[0]
  {
    FirstEndIsEarliest(query, low, other);
    var end := other[|query| - 1];
    GreedyEmbeds(query, low);
    assert Embedding(query, low, Greedy(query, low));
    if forall i :: end < i < |low| ==> low[i] != query[|query| - 1] {
      LastOfIs(low, query[|query| - 1], FirstEnd(query, low), end);
    }
    WindowIsNarrowest(query, low, end);
    EndpointWindow(query, low, end, other);
  }

  /** What is returned: an embedding inside the window, from its first index on, or for a
      longer query the first 32 places of one. */
  lemma {:induction false} MatchIsEmbedding(query: Str, low: Str) returns (at: seq<nat>)
    requires query != [] && Match(query, low).Some?
    ensures IsSubsequence(query, low) && Embedding(query, low, at)
    ensures Window(query, low).0 == at[0] <= at[|query| - 1] <= Window(query, low).1
    ensures Match(query, low).value == if |query| <= 32 then at else at[..32]
  {
    at := Placement(query, low);
    PlacementIsEmbedding(query, low);
  }

  // The scanner.

  lemma {:induction false} GreedyStep(query: Str, low: Str, k: nat, i: nat)
    requires k <= |query| && i < |low|
    ensures Greedy(query, low, k, i)
            == if k < |query| && low[i] == query[k] then [i] + Greedy(query, low, k + 1, i + 1) else Greedy(query, low, k, i + 1)
  {
  }

  /** Forward pass over `text[from..to]`. */
  method ForwardPass(query: Str, text: Str, fold: Folding, from: nat, to: nat) returns (at: seq<nat>)
    requires from <= to <= |text|
    ensures at == Greedy(query, Fold(fold, text)[..to], 0, from)
  {
    ghost var low := Fold(fold, text)[..to];
    at := [];
    for i := from to to
      invariant |at| <= |query|
      invariant Greedy(query, low, 0, from) == at + Greedy(query, low, |at|, i)
    {
      GreedyStep(query, low, |at|, i);
      if |at| < |query| && fold(text[i]) == query[|at|] {
        assert at + ([i] + Greedy(query, low, |at| + 1, i + 1)) == at + [i] + Greedy(query, low, |at| + 1, i + 1);
        at := at + [i];
      }
    }
  }

  method BackwardPass(query: Str, text: Str, fold: Folding, end: nat) returns (start: nat)
    requires query != [] && end < |text|
    ensures start == Backward(query, Fold(fold, text), |query|, end + 1)
  {
    ghost var low := Fold(fold, text);
    var k, i := |query|, end + 1;
    while i > 0
      invariant 1 <= k <= |query| && 0 <= i <= end + 1
      invariant Backward(query, low, |query|, end + 1) == Backward(query, low, k, i)
    {
      i := i - 1;
      if fold(text[i]) == query[k - 1] {
        if k == 1 {
          return i;
        }
        k := k - 1;
      }
    }
    return 0;
  }

  lemma {:induction false} LastOfIs(low: Str, c: Scalar, after: nat, r: nat)
    requires after <= r < |low| && (r == after || low[r] == c)
    requires forall i :: r < i < |low| ==> low[i] != c
    ensures LastOf(low, c, after, |low|) == r
  {
  }

  /** The first complete match's end, and the last occurrence of the last query
      character beyond it. */
  method FindEnds(query: Str, text: Str, fold: Folding) returns (ends: Option<(nat, nat)>)
    requires query != []
    ensures ends.Some? <==> IsSubsequence(query, Fold(fold, text))
    ensures ends.Some? ==> ends.value.0 == FirstEnd(query, Fold(fold, text))
    ensures ends.Some? ==>
              ends.value.1 == LastOf(Fold(fold, text), query[|query| - 1], ends.value.0, |text|)
  {
    ghost var low := Fold(fold, text);
    var at := ForwardPass(query, text, fold, 0, |text|);
    assert low[..|text|] == low;
    GreedyCompletes(query, low, 0, 0);
    if |at| < |query| {
      return None;
    }
    GreedyEmbeds(query, low);
    var firstEnd := at[|query| - 1];
    var last := query[|query| - 1];
    var lastEnd := firstEnd;
    for i := firstEnd + 1 to |text|
      invariant firstEnd <= lastEnd < i && (lastEnd == firstEnd || low[lastEnd] == last)
      invariant forall j :: lastEnd < j < i ==> low[j] != last
    {
      if fold(text[i]) == last {
        lastEnd := i;
      }
    }
    LastOfIs(low, last, firstEnd, lastEnd);
    return Some((firstEnd, lastEnd));
  }

  /** Backward passes from both ends; the tighter window wins. */
  method ChooseWindow(query: Str, text: Str, fold: Folding, firstEnd: nat, lastEnd: nat) returns (start: nat, end: nat)
    requires query != [] && IsSubsequence(query, Fold(fold, text))
    requires firstEnd == FirstEnd(query, Fold(fold, text))
    requires lastEnd == LastOf(Fold(fold, text), query[|query| - 1], firstEnd, |text|)
    ensures (start, end) == Window(query, Fold(fold, text)) && start <= end < |text|
  {
    BackwardStaysBehind(query, Fold(fold, text), firstEnd);
    BackwardStaysBehind(query, Fold(fold, text), lastEnd);
    start := BackwardPass(query, text, fold, firstEnd);
    end := firstEnd;
    if lastEnd != firstEnd {
      var start2 := BackwardPass(query, text, fold, lastEnd);
      if lastEnd - start2 < firstEnd - start {
        start, end := start2, lastEnd;
      }
    }
  }

  method SubsequenceMatch(query: Str, text: Str, fold: Folding) returns (r: Option<seq<nat>>)
    ensures r == Match(query, Fold(fold, text))
  {
    if query == [] {
      return Some([]);
    }
    var ends := FindEnds(query, text, fold);
    if ends.None? {
      return None;
    }
    var start, end := ChooseWindow(query, text, fold, ends.value.0, ends.value.1);
    var at := ForwardPass(query, text, fold, start, end + 1);
    return Some(if |at| <= RECORDED then at else at[..RECORDED]);
  }
}
