/** The table from latest occurrence id to entry, kept sorted by id. */
module LatestTable {

  type Row = (int, nat)

  ghost predicate Sorted(rows: seq<Row>) {
    forall i, j :: 0 <= i < j < |rows| ==> rows[i].0 < rows[j].0
  }

  /** Where `binary_search_by_key` finds `id`, or where it would insert it. */
  function LowerBound(rows: seq<Row>, id: int): (p: nat)
    ensures p <= |rows|
    ensures forall i :: 0 <= i < p ==> rows[i].0 < id
    ensures p < |rows| ==> id <= rows[p].0
  {
    if rows == [] || id <= rows[0].0 then 0 else 1 + LowerBound(rows[1..], id)
  }

  predicate Found(rows: seq<Row>, id: int) {
    LowerBound(rows, id) < |rows| && rows[LowerBound(rows, id)].0 == id
  }

  /** `forget_latest_occurrence`. */
  function Forget(rows: seq<Row>, id: int): seq<Row> {
    var p := LowerBound(rows, id);
    if Found(rows, id) then rows[..p] + rows[p + 1..] else rows
  }

  /** `record_latest_occurrence`. */
  function RecordLatest(rows: seq<Row>, id: int, idx: nat): seq<Row> {
    var p := LowerBound(rows, id);
    if Found(rows, id) then rows[p := (id, idx)] else rows[..p] + [(id, idx)] + rows[p..]
  }

  lemma {:induction false} SortedSearch(rows: seq<Row>, id: int, r: Row)
    requires Sorted(rows) && r in rows && r.0 == id
    ensures Found(rows, id) && rows[LowerBound(rows, id)] == r
  {
    var i :| 0 <= i < |rows| && rows[i] == r;
    var p := LowerBound(rows, id);
    assert p <= i;
    assert p < i ==> rows[p].0 < rows[i].0;
  }

  lemma {:induction false} RemoveSorted(rows: seq<Row>, p: nat)
    requires Sorted(rows) && p < |rows|
    ensures Sorted(rows[..p] + rows[p + 1..])
    ensures forall r :: r in rows[..p] + rows[p + 1..] ==> r.0 != rows[p].0
  {
    var rest := rows[..p] + rows[p + 1..];
    assert forall i :: 0 <= i < |rest| ==> rest[i] == rows[if i < p then i else i + 1];
  }

  /** Forgetting removes exactly the row with that id. */
  lemma {:induction false} ForgetRemoves(rows: seq<Row>, id: int)
    requires Sorted(rows)
    ensures Sorted(Forget(rows, id))
    ensures forall r :: r in Forget(rows, id) <==> r in rows && r.0 != id
  {
    var p := LowerBound(rows, id);
    if Found(rows, id) {
      RemoveSorted(rows, p);
      assert rows == rows[..p] + [rows[p]] + rows[p + 1..];
    }
    forall r | r in rows && r.0 == id
      ensures Found(rows, id) && r == rows[p]
    {
      SortedSearch(rows, id, r);
    }
  }

  lemma {:induction false} InsertSorted(rows: seq<Row>, p: nat, r: Row)
    requires Sorted(rows) && p <= |rows|
    requires forall i :: 0 <= i < p ==> rows[i].0 < r.0
    requires p < |rows| ==> r.0 < rows[p].0
    ensures Sorted(rows[..p] + [r] + rows[p..])
  {
  }

  /** Recording a fresh id adds exactly one row. */
  lemma {:induction false} RecordAdds(rows: seq<Row>, id: int, idx: nat)
    requires Sorted(rows) && forall r :: r in rows ==> r.0 != id
    ensures Sorted(RecordLatest(rows, id, idx))
    ensures forall r :: r in RecordLatest(rows, id, idx) <==> r in rows || r == (id, idx)
  {
    var p := LowerBound(rows, id);
    assert p < |rows| ==> rows[p] in rows;
    InsertSorted(rows, p, (id, idx));
    InsertMembers(rows, p, (id, idx));
  }

  lemma {:induction false} InsertMembers(rows: seq<Row>, p: nat, r: Row)
    requires p <= |rows|
    ensures forall s :: s in rows[..p] + [r] + rows[p..] <==> s in rows || s == r
  {
    assert rows == rows[..p] + rows[p..];
  }

  ghost predicate RowOk(rows: seq<Row>, ids: seq<nat>, r: Row) {
    r in rows <==> r.1 < |ids| && 0 < r.0 == ids[r.1]
  }

  /** Exactly one row per entry with an occurrence, under the entry's latest id. */
  ghost predicate OneRowEach(rows: seq<Row>, ids: seq<nat>) {
    Sorted(rows) && forall r :: RowOk(rows, ids, r)
  }

  /** An entry's new occurrence moves its row and touches no other. */
  lemma {:induction false} MoveRow(rows: seq<Row>, ids: seq<nat>, idx: nat, id: nat)
    requires OneRowEach(rows, ids) && idx < |ids| && id > 0
    requires forall i :: 0 <= i < |ids| ==> ids[i] != id
    requires forall i :: 0 <= i < |ids| && ids[i] == ids[idx] && ids[i] > 0 ==> i == idx
    ensures OneRowEach(RecordLatest(Forget(rows, ids[idx]), id, idx), ids[idx := id])
  {
    var dropped := Forget(rows, ids[idx]);
    ForgetRemoves(rows, ids[idx]);
    forall r | r in dropped
      ensures r.0 != id
    {
      assert RowOk(rows, ids, r);
    }
    RecordAdds(dropped, id, idx);
    var after, ids' := RecordLatest(dropped, id, idx), ids[idx := id];
    forall r: Row
      ensures RowOk(after, ids', r)
    {
      assert RowOk(rows, ids, r);
    }
  }

  /** `search_entry_indices_into`: the entries, latest first. */
  function EntryIndices(rows: seq<Row>): (out: seq<nat>)
    ensures |out| == |rows|
    ensures forall i :: 0 <= i < |rows| ==> out[i] == rows[|rows| - 1 - i].1
  {
    seq(|rows|, i requires 0 <= i < |rows| => rows[|rows| - 1 - i].1)
  }

  /** Every entry is listed exactly once. */
  lemma {:induction false} EntryIndicesAreAll(rows: seq<Row>, ids: seq<nat>)
    requires OneRowEach(rows, ids) && forall i :: 0 <= i < |ids| ==> ids[i] > 0
    ensures forall i, j :: 0 <= i < j < |rows| ==> EntryIndices(rows)[i] != EntryIndices(rows)[j]
    ensures forall x :: x in EntryIndices(rows) <==> 0 <= x < |ids|
  {
    var out := EntryIndices(rows);
    forall i, j | 0 <= i < j < |rows|
      ensures out[i] != out[j]
    {
      var a, b := rows[|rows| - 1 - i], rows[|rows| - 1 - j];
      assert RowOk(rows, ids, a) && RowOk(rows, ids, b) && b.0 < a.0;
    }
    forall x | 0 <= x < |ids|
      ensures x in out
    {
      assert RowOk(rows, ids, (ids[x] as int, x));
      var k :| 0 <= k < |rows| && rows[k] == (ids[x] as int, x);
      assert out[|rows| - 1 - k] == x;
    }
    forall x | x in out
      ensures 0 <= x < |ids|
    {
      var k :| 0 <= k < |out| && out[k] == x;
      assert RowOk(rows, ids, rows[|rows| - 1 - k]);
    }
  }
}
