/** The Up-arrow recall list: replaced occurrences leave a tombstone. */
module SessionList {
  import opened Text

  const REMOVED: nat := 0xFFFF_FFFF

  /** The plain list the tombstoned one stands for. */
  function Live(session: seq<nat>): seq<nat> {
    if session == [] then []
    else
      var last := session[|session| - 1];
      Live(session[..|session| - 1]) + (if last == REMOVED then [] else [last])
  }

  function Without(s: seq<nat>, x: nat): seq<nat> {
    if s == [] then []
    else
      var last := s[|s| - 1];
      Without(s[..|s| - 1], x) + (if last == x then [] else [last])
  }

  /** The specification of remembering: move to the end. */
  function MoveToEnd(s: seq<nat>, x: nat): seq<nat> {
    Without(s, x) + [x]
  }

  /** Slot `k` is a tombstone, or the entry in it says it is there. */
  ghost predicate SlotOk(session: seq<nat>, positions: seq<nat>, k: nat)
    requires k < |session|
  {
    session[k] == REMOVED || (session[k] < |positions| && positions[session[k]] == k + 1)
  }

  /** Entry `i` has no slot, or is live where it says. Positions are one-based. */
  ghost predicate EntryPlaced(session: seq<nat>, positions: seq<nat>, i: nat)
    requires i < |positions|
  {
    positions[i] == 0 || (positions[i] <= |session| && session[positions[i] - 1] == i)
  }

  ghost predicate Placed(session: seq<nat>, positions: seq<nat>) {
    && |positions| <= REMOVED
    && (forall k :: 0 <= k < |session| ==> SlotOk(session, positions, k))
    && (forall i :: 0 <= i < |positions| ==> EntryPlaced(session, positions, i))
  }

  lemma {:induction false} LiveAppend(session: seq<nat>, x: nat)
    ensures Live(session + [x]) == Live(session) + if x == REMOVED then [] else [x]
  {
    assert (session + [x])[..|session|] == session;
  }

  lemma {:induction false} LiveMembers(session: seq<nat>)
    ensures forall x :: x in Live(session) <==> x in session && x != REMOVED
  {
    if session != [] {
      LiveMembers(session[..|session| - 1]);
      assert session == session[..|session| - 1] + [session[|session| - 1]];
    }
  }

  lemma {:induction false} WithoutAbsent(s: seq<nat>, x: nat)
    requires x !in s
    ensures Without(s, x) == s
  {
    if s != [] {
      WithoutAbsent(s[..|s| - 1], x);
      assert s == s[..|s| - 1] + [s[|s| - 1]];
    }
  }

  lemma {:induction false} WithoutAppend(s: seq<nat>, y: nat, x: nat)
    ensures Without(s + [y], x) == Without(s, x) + if y == x then [] else [y]
  {
    assert (s + [y])[..|s|] == s;
  }

  /** A tombstone removes its entry from the plain list. */
  lemma {:induction false} TombstoneRemoves(session: seq<nat>, k: nat)
    requires k < |session| && session[k] != REMOVED
    requires forall j :: 0 <= j < |session| && j != k ==> session[j] != session[k]
    ensures Live(session[k := REMOVED]) == Without(Live(session), session[k])
    ensures |Live(session[k := REMOVED])| == |Live(session)| - 1
  {
    var n := |session| - 1;
    var front, last := session[..n], session[n];
    assert session == front + [last];
    LiveAppend(front, last);
    if k < n {
      TombstoneRemoves(front, k);
      assert session[k := REMOVED] == front[k := REMOVED] + [last];
      LiveAppend(front[k := REMOVED], last);
      if last != REMOVED {
        WithoutAppend(Live(front), last, session[k]);
      } else {
        assert Live(session) == Live(front);
      }
    } else {
      assert session[k := REMOVED] == front + [REMOVED];
      LiveAppend(front, REMOVED);
      LiveMembers(front);
      WithoutAbsent(Live(front), last);
      WithoutAppend(Live(front), last, last);
    }
  }

  /** No entry has two slots. */
  ghost predicate NoRepeats(session: seq<nat>) {
    forall j, k :: 0 <= j < k < |session| && session[j] == session[k] ==> session[j] == REMOVED
  }

  lemma {:induction false} PlacedHasNoRepeats(session: seq<nat>, positions: seq<nat>)
    requires Placed(session, positions)
    ensures NoRepeats(session)
  {
    forall j, k | 0 <= j < k < |session| && session[j] == session[k]
      ensures session[j] == REMOVED
    {
      assert SlotOk(session, positions, j) && SlotOk(session, positions, k);
    }
  }

  /** The plain list holds each entry once. */
  lemma {:induction false} LiveIsDistinct(session: seq<nat>)
    requires NoRepeats(session)
    ensures forall j, k :: 0 <= j < k < |Live(session)| ==> Live(session)[j] != Live(session)[k]
  {
    if session != [] {
      var front := session[..|session| - 1];
      LiveIsDistinct(front);
      LiveMembers(front);
      var last := session[|session| - 1];
      assert last != REMOVED ==> last !in front;
    }
  }

  /** `remember_session` before compaction: tombstone the old slot, append a new one. */
  function Remembered(session: seq<nat>, position: nat, idx: nat): seq<nat>
    requires position <= |session|
  {
    (if position > 0 then session[position - 1 := REMOVED] else session) + [idx]
  }

  lemma {:induction false} RememberKeepsPlaced(session: seq<nat>, positions: seq<nat>, idx: nat)
    requires Placed(session, positions) && idx < |positions|
    ensures positions[idx] <= |session|
    ensures Placed(Remembered(session, positions[idx], idx), positions[idx := |session| + 1])
  {
    assert EntryPlaced(session, positions, idx);
    var after, positions' := Remembered(session, positions[idx], idx), positions[idx := |session| + 1];
    forall k | 0 <= k < |after|
      ensures SlotOk(after, positions', k)
    {
      assert k < |session| ==> SlotOk(session, positions, k);
    }
    forall i | 0 <= i < |positions'|
      ensures EntryPlaced(after, positions', i)
    {
      assert EntryPlaced(session, positions, i);
    }
  }

  /** On the plain list, remembering is moving to the end. */
  lemma {:induction false} RememberMovesToEnd(session: seq<nat>, positions: seq<nat>, idx: nat)
    requires Placed(session, positions) && idx < |positions|
    ensures positions[idx] <= |session|
    ensures Live(Remembered(session, positions[idx], idx)) == MoveToEnd(Live(session), idx)
    ensures |MoveToEnd(Live(session), idx)| == |Live(session)| + if positions[idx] == 0 then 1 else 0
  {
    assert EntryPlaced(session, positions, idx);
    PlacedHasNoRepeats(session, positions);
    if positions[idx] > 0 {
      var k := positions[idx] - 1;
      TombstoneRemoves(session, k);
      LiveAppend(session[k := REMOVED], idx);
    } else {
      LiveMembers(session);
      assert forall k :: 0 <= k < |session| ==> SlotOk(session, positions, k) && session[k] != idx;
      WithoutAbsent(Live(session), idx);
      LiveAppend(session, idx);
    }
  }

  /** What compaction has done after `k` slots: entries met so far have their new place. */
  ghost predicate Compacted(compact: seq<nat>, positions: seq<nat>, before: seq<nat>) {
    && |positions| == |before|
    && (forall j :: 0 <= j < |compact| ==> compact[j] < |positions| && positions[compact[j]] == j + 1)
    && (forall i :: 0 <= i < |positions| && i !in compact ==> positions[i] == before[i])
  }

  /** Compaction leaves the plain list itself, with exact positions. */
  lemma {:induction false} CompactedIsPlaced(session: seq<nat>, before: seq<nat>, positions: seq<nat>)
    requires Placed(session, before) && Compacted(Live(session), positions, before)
    ensures Placed(Live(session), positions) && Live(Live(session)) == Live(session)
  {
    var compact := Live(session);
    LiveMembers(session);
    forall k | 0 <= k < |compact|
      ensures SlotOk(compact, positions, k)
    {
    }
    forall i | 0 <= i < |positions|
      ensures EntryPlaced(compact, positions, i)
    {
      if i in compact {
        var j :| 0 <= j < |compact| && compact[j] == i;
      } else {
        assert EntryPlaced(session, before, i);
      }
    }
    LiveOfLive(compact);
  }

  lemma {:induction false} LiveOfLive(s: seq<nat>)
    requires REMOVED !in s
    ensures Live(s) == s
  {
    if s != [] {
      LiveOfLive(s[..|s| - 1]);
      assert s == s[..|s| - 1] + [s[|s| - 1]];
    }
  }

  /** Recall by skip reads the plain list from its end. */
  method SessionGet(session: seq<nat>, skip: nat) returns (r: Option<nat>)
    ensures r == if skip < |Live(session)| then Some(Live(session)[|Live(session)| - 1 - skip]) else None
  {
    var k, left := |session|, skip;
    ghost var tail: seq<nat> := [];
    assert session[..k] == session;
    while k > 0
      invariant 0 <= k <= |session| && 0 <= left && left + |tail| == skip
      invariant Live(session) == Live(session[..k]) + tail
    {
      k := k - 1;
      assert session[..k + 1] == session[..k] + [session[k]];
      LiveAppend(session[..k], session[k]);
      if session[k] != REMOVED {
        if left == 0 {
          return Some(session[k]);
        }
        left := left - 1;
        tail := [session[k]] + tail;
      }
    }
    assert session[..k] == [] && Live(session) == tail;
    return None;
  }
}
