/** Bounded insertion: keeping the `limit` greatest entries of a stream, for any
    strict total order on entries. */
module TopK {

  /** `lt(i, j)`: entry `j` ranks above entry `i`. */
  type Order = (nat, nat) -> bool

  ghost predicate Comparable(lt: Order, i: nat, j: nat) {
    lt(i, j) != lt(j, i)
  }

  /** A strict total order on the entries below `n`. */
  ghost predicate IsOrder(lt: Order, n: nat) {
    && (forall i :: 0 <= i < n ==> !lt(i, i))
    && (forall i, j :: 0 <= i < n && 0 <= j < n && i != j ==> Comparable(lt, i, j))
    && (forall i, j, k :: 0 <= i < n && 0 <= j < n && 0 <= k < n && lt(i, j) && lt(j, k) ==> lt(i, k))
  }

  ghost predicate Within(s: set<nat>, n: nat) {
    forall x :: x in s ==> x < n
  }

  /** `m` is the greatest entry of `s`. */
  ghost predicate IsGreatest(lt: Order, s: set<nat>, m: nat) {
    m in s && forall x :: x in s && x != m ==> lt(x, m)
  }

  ghost function Greatest(lt: Order, n: nat, s: set<nat>): (m: nat)
    requires IsOrder(lt, n) && Within(s, n) && s != {}
    ensures IsGreatest(lt, s, m)
  {
    var x :| x in s;
    var rest := s - {x};
    if rest == {} then assert s == {x}; x
    else
      var m := Greatest(lt, n, rest);
      assert Comparable(lt, m, x);
      if lt(m, x) then x else m
  }

  lemma {:induction false} GreatestIs(lt: Order, n: nat, s: set<nat>, m: nat)
    requires IsOrder(lt, n) && Within(s, n) && IsGreatest(lt, s, m)
    ensures Greatest(lt, n, s) == m
  {
    assert m == Greatest(lt, n, s) || Comparable(lt, m, Greatest(lt, n, s));
  }

  /** The reference: take the greatest entry, then the best of the rest. */
  ghost function Best(lt: Order, n: nat, s: set<nat>, limit: nat): seq<nat>
    requires IsOrder(lt, n) && Within(s, n)
    decreases limit
  {
    if limit == 0 || s == {} then []
    else [Greatest(lt, n, s)] + Best(lt, n, s - {Greatest(lt, n, s)}, limit - 1)
  }

  ghost predicate Descends(lt: Order, top: seq<nat>) {
    |top| < 2 || (lt(top[1], top[0]) && Descends(lt, top[1..]))
  }

  /** The reference lists at most `limit` members of `s`, greatest first. */
  lemma {:induction false} BestDescends(lt: Order, n: nat, s: set<nat>, limit: nat)
    requires IsOrder(lt, n) && Within(s, n)
    ensures |Best(lt, n, s, limit)| <= limit
    ensures forall x :: x in Best(lt, n, s, limit) ==> x in s
    ensures Descends(lt, Best(lt, n, s, limit))
    decreases limit
  {
    if limit > 0 && s != {} {
      BestDescends(lt, n, s - {Greatest(lt, n, s)}, limit - 1);
    }
  }

  /** The reference lists as many as it may. */
  lemma {:induction false} BestIsFull(lt: Order, n: nat, s: set<nat>, limit: nat)
    requires IsOrder(lt, n) && Within(s, n)
    ensures |Best(lt, n, s, limit)| == if |s| < limit then |s| else limit
    decreases limit
  {
    if limit > 0 && s != {} {
      var rest := s - {Greatest(lt, n, s)};
      assert |rest| == |s| - 1;
      BestIsFull(lt, n, rest, limit - 1);
    }
  }

  /** Nothing left out beats anything listed. */
  lemma {:induction false} LeftOutIsSmaller(lt: Order, n: nat, s: set<nat>, limit: nat, x: nat, i: nat)
    requires IsOrder(lt, n) && Within(s, n) && x in s && x !in Best(lt, n, s, limit)
    requires i < |Best(lt, n, s, limit)|
    ensures lt(x, Best(lt, n, s, limit)[i])
    decreases limit
  {
    var m := Greatest(lt, n, s);
    if i > 0 {
      LeftOutIsSmaller(lt, n, s - {m}, limit - 1, x, i - 1);
    }
  }

  function Take(s: seq<nat>, n: nat): seq<nat> {
    if |s| <= n then s else s[..n]
  }

  /** Shorter limits give prefixes. */
  lemma {:induction false} BestPrefix(lt: Order, n: nat, s: set<nat>, limit: nat)
    requires IsOrder(lt, n) && Within(s, n) && limit > 0
    ensures Best(lt, n, s, limit - 1) == Take(Best(lt, n, s, limit), limit - 1)
    decreases limit
  {
    if limit > 1 && s != {} {
      BestPrefix(lt, n, s - {Greatest(lt, n, s)}, limit - 1);
    }
  }

  /** Sorted insertion cut at the limit. */
  ghost function InsertCut(lt: Order, top: seq<nat>, limit: nat, x: nat): seq<nat> {
    if limit == 0 then []
    else if top == [] then [x]
    else if lt(top[0], x) then [x] + Take(top, limit - 1)
    else [top[0]] + InsertCut(lt, top[1..], limit - 1, x)
  }

  lemma {:induction false} GreatestOfOneMore(lt: Order, n: nat, s: set<nat>, x: nat)
    requires IsOrder(lt, n) && Within(s, n) && x < n && x !in s
    ensures Greatest(lt, n, s + {x}) == if s == {} || lt(Greatest(lt, n, s), x) then x else Greatest(lt, n, s)
  {
    if s == {} {
      GreatestIs(lt, n, s + {x}, x);
    } else {
      var m := Greatest(lt, n, s);
      assert Comparable(lt, m, x);
      GreatestIs(lt, n, s + {x}, if lt(m, x) then x else m);
    }
  }

  /** One more candidate: the reference of the larger set is the sorted insertion. */
  lemma {:induction false} BestOfOneMore(lt: Order, n: nat, s: set<nat>, limit: nat, x: nat)
    requires IsOrder(lt, n) && Within(s, n) && x < n && x !in s
    ensures Best(lt, n, s + {x}, limit) == InsertCut(lt, Best(lt, n, s, limit), limit, x)
    decreases limit
  {
    if limit > 0 {
      GreatestOfOneMore(lt, n, s, x);
      assert s + {x} - {x} == s;
      if s != {} {
        var m := Greatest(lt, n, s);
        if lt(m, x) {
          BestPrefix(lt, n, s, limit);
        } else {
          assert s + {x} - {m} == (s - {m}) + {x};
          BestOfOneMore(lt, n, s - {m}, limit - 1, x);
        }
      }
    }
  }

  // The loop's own steps.

  /** How many leading entries rank above: `partition_point`. */
  function Position(lt: Order, top: seq<nat>, x: nat): (p: nat)
    ensures p <= |top|
  {
    if top == [] || !lt(x, top[0]) then 0 else 1 + Position(lt, top[1..], x)
  }

  function Insert<T>(top: seq<T>, p: nat, x: T): seq<T>
    requires p <= |top|
  {
    top[..p] + [x] + top[p..]
  }

  /** A full list whose last entry does not rank below the newcomer rejects it. */
  lemma {:induction false} RejectIsInsertCut(lt: Order, n: nat, top: seq<nat>, x: nat)
    requires IsOrder(lt, n) && Descends(lt, top) && x < n && (forall i :: 0 <= i < |top| ==> top[i] < n)
    requires top != [] && !lt(top[|top| - 1], x)
    ensures !lt(top[0], x)
    ensures InsertCut(lt, top, |top|, x) == top
  {
    if |top| > 1 {
      RejectIsInsertCut(lt, n, top[1..], x);
      assert top[1] != top[0] && Comparable(lt, top[1], top[0]);
    } else {
      assert top[1..] == [];
    }
  }

  lemma {:induction false} InsertUnder(head: nat, top: seq<nat>, p: nat, x: nat)
    requires p <= |top|
    ensures Insert([head] + top, p + 1, x) == [head] + Insert(top, p, x)
  {
  }

  lemma {:induction false} TakeUnder(top: seq<nat>, k: nat)
    requires k > 0 && top != []
    ensures Take(top, k) == [top[0]] + Take(top[1..], k - 1)
  {
  }

  /** Insertion at the partition point, after a full list dropped its last. */
  lemma {:induction false} InsertIsInsertCut(lt: Order, n: nat, top: seq<nat>, limit: nat, x: nat)
    requires IsOrder(lt, n) && x < n && (forall i :: 0 <= i < |top| ==> top[i] < n && top[i] != x)
    requires |top| <= limit && limit > 0
    requires |top| == limit ==> lt(top[limit - 1], x)
    ensures Position(lt, top, x) <= |Take(top, limit - 1)|
    ensures Insert(Take(top, limit - 1), Position(lt, top, x), x) == InsertCut(lt, top, limit, x)
  {
    if top != [] {
      assert Comparable(lt, top[0], x);
      if !lt(top[0], x) {
        var rest := top[1..];
        InsertIsInsertCut(lt, n, rest, limit - 1, x);
        TakeUnder(top, limit - 1);
        InsertUnder(top[0], Take(rest, limit - 2), Position(lt, rest, x), x);
      }
    }
  }

  /** Rejecting an entry that does not beat the last of a full list keeps the list exact. */
  lemma {:induction false} RejectKeepsBest(lt: Order, n: nat, s: set<nat>, limit: nat, x: nat)
    requires IsOrder(lt, n) && Within(s, n) && x < n && x !in s
    requires 0 < limit == |Best(lt, n, s, limit)| && !lt(Best(lt, n, s, limit)[limit - 1], x)
    ensures Best(lt, n, s + {x}, limit) == Best(lt, n, s, limit)
  {
    var top := Best(lt, n, s, limit);
    BestDescends(lt, n, s, limit);
    assert forall i :: 0 <= i < |top| ==> top[i] in top;
    BestOfOneMore(lt, n, s, limit, x);
    RejectIsInsertCut(lt, n, top, x);
  }

  /** Dropping the last of a full list it beats and inserting at the partition point
      keeps the list exact. */
  lemma {:induction false} InsertKeepsBest(lt: Order, n: nat, s: set<nat>, limit: nat, x: nat)
    requires IsOrder(lt, n) && Within(s, n) && x < n && x !in s && limit > 0
    requires |Best(lt, n, s, limit)| == limit ==> lt(Best(lt, n, s, limit)[limit - 1], x)
    ensures var top := Best(lt, n, s, limit);
            && Position(lt, top, x) <= |Take(top, limit - 1)|
            && Best(lt, n, s + {x}, limit) == Insert(Take(top, limit - 1), Position(lt, top, x), x)
  {
    var top := Best(lt, n, s, limit);
    BestDescends(lt, n, s, limit);
    assert forall i :: 0 <= i < |top| ==> top[i] in top;
    BestOfOneMore(lt, n, s, limit, x);
    InsertIsInsertCut(lt, n, top, limit, x);
  }
}
