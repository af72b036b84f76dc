/** Environment differences of denv: the two-pointer comparison of sorted snapshots, the
    dotenv overlay on a sorted snapshot, and the difference of a lone `.env` file. */
module EnvDiff {
  import opened Text
  import opened Bytes

  type Name = Bytes

  datatype Pair = Pair(name: Name, value: Bytes)

  // The byte order on names.

  predicate Less(a: Name, b: Name) {
    b != [] && (a == [] || a[0] < b[0] || (a[0] == b[0] && Less(a[1..], b[1..])))
  }

  lemma {:induction false} LessIsStrict(a: Name)
    ensures !Less(a, a)
  {
    if a != [] {
      LessIsStrict(a[1..]);
    }
  }

  lemma {:induction false} LessIsTotal(a: Name, b: Name)
    ensures Less(a, b) || a == b || Less(b, a)
  {
    if a != [] && b != [] && a[0] == b[0] {
      LessIsTotal(a[1..], b[1..]);
      assert a == [a[0]] + a[1..] && b == [b[0]] + b[1..];
    }
  }

  lemma {:induction false} LessIsTransitive(a: Name, b: Name, c: Name)
    requires Less(a, b) && Less(b, c)
    ensures Less(a, c)
  {
    if a != [] && a[0] == b[0] && b[0] == c[0] {
      LessIsTransitive(a[1..], b[1..], c[1..]);
    }
  }

  // Snapshots.

  /** Strictly increasing names: what `filtered_env_from_snapshot` returns. */
  predicate Sorted(s: seq<Pair>) {
    forall i, j :: 0 <= i < j < |s| ==> Less(s[i].name, s[j].name)
  }

  predicate Named(s: seq<Pair>, n: Name) {
    exists p :: p in s && p.name == n
  }

  /** The snapshot as a map, a later pair replacing an earlier one. */
  function AsMap(s: seq<Pair>): map<Name, Bytes> {
    if s == [] then map[]
    else
      var last := s[|s| - 1];
      AsMap(s[..|s| - 1])[last.name := last.value]
  }

  predicate Holds(m: map<Name, Bytes>, p: Pair) {
    p.name in m && m[p.name] == p.value
  }

  lemma {:induction false} AsMapNames(s: seq<Pair>, n: Name)
    ensures n in AsMap(s) <==> Named(s, n)
  {
    if s != [] {
      var last := s[|s| - 1];
      AsMapNames(s[..|s| - 1], n);
      assert s == s[..|s| - 1] + [last];
    }
  }

  lemma {:induction false} AsMapHolds(s: seq<Pair>, i: nat)
    requires Sorted(s) && i < |s|
    ensures Holds(AsMap(s), s[i])
  {
    var last := s[|s| - 1];
    if i < |s| - 1 {
      AsMapHolds(s[..|s| - 1], i);
      LessIsStrict(last.name);
    }
  }

  lemma {:induction false} AsMapIsContents(s: seq<Pair>, p: Pair)
    requires Sorted(s)
    ensures Holds(AsMap(s), p) <==> p in s
  {
    if p in s {
      var i :| 0 <= i < |s| && s[i] == p;
      AsMapHolds(s, i);
    } else if Holds(AsMap(s), p) {
      AsMapNames(s, p.name);
      var q :| q in s && q.name == p.name;
      var i :| 0 <= i < |s| && s[i] == q;
      AsMapHolds(s, i);
    }
  }

  // The two-pointer difference.

  /** Pairs of `after` that `before` does not hold, in order. */
  function Added(after: seq<Pair>, before: seq<Pair>): seq<Pair> {
    if after == [] then []
    else
      var last := after[|after| - 1];
      Added(after[..|after| - 1], before) + if last in before then [] else [last]
  }

  /** Names of `before` that `after` does not have, in order. */
  function Dropped(before: seq<Pair>, after: seq<Pair>): seq<Name> {
    if before == [] then []
    else
      var last := before[|before| - 1];
      Dropped(before[..|before| - 1], after) + if Named(after, last.name) then [] else [last.name]
  }

  /** Everything before the pointer lies below the other list's next name. */
  predicate Below(s: seq<Pair>, i: nat, t: seq<Pair>, j: nat) {
    i <= |s| && (j < |t| ==> forall k :: 0 <= k < i ==> Less(s[k].name, t[j].name))
  }

  lemma {:induction false} BelowAfterStep(s: seq<Pair>, i: nat, t: seq<Pair>, j: nat)
    requires Sorted(t) && Below(s, i, t, j) && j < |t|
    ensures Below(s, i, t, j + 1)
  {
    if j + 1 < |t| {
      forall k | 0 <= k < i
        ensures Less(s[k].name, t[j + 1].name)
      {
        LessIsTransitive(s[k].name, t[j].name, t[j + 1].name);
      }
    }
  }

  /** A name strictly between `t[j - 1]` and `t[j]` is not a name of `t`. */
  lemma {:induction false} AbsentBetween(t: seq<Pair>, j: nat, n: Name)
    requires Sorted(t) && j <= |t|
    requires forall k :: 0 <= k < j ==> Less(t[k].name, n)
    requires j < |t| ==> Less(n, t[j].name)
    ensures !Named(t, n)
  {
    if Named(t, n) {
      var p :| p in t && p.name == n;
      var k :| 0 <= k < |t| && t[k] == p;
      LessIsStrict(n);
      if k > j {
        LessIsTransitive(n, t[j].name, n);
      }
    }
  }

  lemma {:induction false} AddedStep(after: seq<Pair>, j: nat, before: seq<Pair>)
    requires j < |after|
    ensures Added(after[..j + 1], before) == Added(after[..j], before) + if after[j] in before then [] else [after[j]]
  {
    assert after[..j + 1][..j] == after[..j];
  }

  lemma {:induction false} DroppedStep(before: seq<Pair>, i: nat, after: seq<Pair>)
    requires i < |before|
    ensures Dropped(before[..i + 1], after)
            == Dropped(before[..i], after) + if Named(after, before[i].name) then [] else [before[i].name]
  {
    assert before[..i + 1][..i] == before[..i];
  }

  /** At equal names the pair is in `before` exactly when the values agree. */
  lemma {:induction false} SameNameSamePair(before: seq<Pair>, i: nat, p: Pair)
    requires Sorted(before) && i < |before| && before[i].name == p.name
    ensures p in before <==> before[i] == p
  {
    AsMapHolds(before, i);
    AsMapIsContents(before, p);
  }

  predicate Pointers(before: seq<Pair>, i: nat, after: seq<Pair>, j: nat) {
    Below(before, i, after, j) && Below(after, j, before, i)
  }

  /** What the loop has put out once its pointers stand at `i` and `j`. */
  predicate DiffSoFar(before: seq<Pair>, i: nat, after: seq<Pair>, j: nat, set_: seq<Pair>, unset: seq<Name>) {
    Pointers(before, i, after, j) && set_ == Added(after[..j], before) && unset == Dropped(before[..i], after)
  }

  lemma {:induction false} PassBefore(before: seq<Pair>, i: nat, after: seq<Pair>, j: nat, set_: seq<Pair>, unset: seq<Name>)
    requires Sorted(before) && Sorted(after) && DiffSoFar(before, i, after, j, set_, unset) && i < |before| && j < |after|
    requires Less(before[i].name, after[j].name)
    ensures DiffSoFar(before, i + 1, after, j, set_, unset + [before[i].name])
  {
    AbsentBetween(after, j, before[i].name);
    BelowAfterStep(after, j, before, i);
    DroppedStep(before, i, after);
  }

  lemma {:induction false} PassAfter(before: seq<Pair>, i: nat, after: seq<Pair>, j: nat, set_: seq<Pair>, unset: seq<Name>)
    requires Sorted(before) && Sorted(after) && DiffSoFar(before, i, after, j, set_, unset) && i < |before| && j < |after|
    requires Less(after[j].name, before[i].name)
    ensures DiffSoFar(before, i, after, j + 1, set_ + [after[j]], unset)
  {
    AbsentBetween(before, i, after[j].name);
    BelowAfterStep(before, i, after, j);
    AddedStep(after, j, before);
  }

  lemma {:induction false} PassBoth(before: seq<Pair>, i: nat, after: seq<Pair>, j: nat, set_: seq<Pair>, unset: seq<Name>)
    requires Sorted(before) && Sorted(after) && DiffSoFar(before, i, after, j, set_, unset) && i < |before| && j < |after|
    requires before[i].name == after[j].name
    ensures before[i].value != after[j].value ==> DiffSoFar(before, i + 1, after, j + 1, set_ + [after[j]], unset)
    ensures before[i].value == after[j].value ==> DiffSoFar(before, i + 1, after, j + 1, set_, unset)
  {
    BelowAfterStep(before, i, after, j);
    BelowAfterStep(after, j, before, i);
    DroppedStep(before, i, after);
    AddedStep(after, j, before);
    SameNameSamePair(before, i, after[j]);
    assert after[j] in after;
  }

  /** `diff_sorted_env`. */
  method DiffSortedEnv(before: seq<Pair>, after: seq<Pair>) returns (set_: seq<Pair>, unset: seq<Name>)
    requires Sorted(before) && Sorted(after)
    ensures set_ == Added(after, before) && unset == Dropped(before, after)
  {
    var i, j := 0, 0;
    set_, unset := [], [];
    while i < |before| && j < |after|
      invariant i <= |before| && j <= |after| && DiffSoFar(before, i, after, j, set_, unset)
    {
      LessIsTotal(before[i].name, after[j].name);
      if Less(before[i].name, after[j].name) {
        PassBefore(before, i, after, j, set_, unset);
        unset := unset + [before[i].name];
        i := i + 1;
      } else if Less(after[j].name, before[i].name) {
        PassAfter(before, i, after, j, set_, unset);
        set_ := set_ + [after[j]];
        j := j + 1;
      } else {
        PassBoth(before, i, after, j, set_, unset);
        if before[i].value != after[j].value {
          set_ := set_ + [after[j]];
        }
        i := i + 1;
        j := j + 1;
      }
    }
    unset := DropRest(before, i, after, j, unset);
    set_ := AddRest(after, j, before, i, set_);
  }

  /** The names of `before` past the end of `after`. */
  method DropRest(before: seq<Pair>, start: nat, after: seq<Pair>, j: nat, have: seq<Name>) returns (unset: seq<Name>)
    requires Sorted(before) && Sorted(after) && start <= |before|
    requires start < |before| ==> j == |after| && Below(after, j, before, start)
    requires have == Dropped(before[..start], after)
    ensures unset == Dropped(before, after)
  {
    unset := have;
    var i := start;
    while i < |before|
      invariant start <= i <= |before|
      invariant i < |before| ==> j == |after| && Below(after, j, before, i)
      invariant unset == Dropped(before[..i], after)
    {
      AbsentBetween(after, j, before[i].name);
      DroppedStep(before, i, after);
      BelowAfterStep(after, j, before, i);
      unset := unset + [before[i].name];
      i := i + 1;
    }
    assert before[..i] == before;
  }

  /** The pairs of `after` past the end of `before`. */
  method AddRest(after: seq<Pair>, start: nat, before: seq<Pair>, i: nat, have: seq<Pair>) returns (set_: seq<Pair>)
    requires Sorted(before) && Sorted(after) && start <= |after|
    requires start < |after| ==> i == |before| && Below(before, i, after, start)
    requires have == Added(after[..start], before)
    ensures set_ == Added(after, before)
  {
    set_ := have;
    var j := start;
    while j < |after|
      invariant start <= j <= |after|
      invariant j < |after| ==> i == |before| && Below(before, i, after, j)
      invariant set_ == Added(after[..j], before)
    {
      AbsentBetween(before, i, after[j].name);
      AddedStep(after, j, before);
      BelowAfterStep(before, i, after, j);
      set_ := set_ + [after[j]];
      j := j + 1;
    }
    assert after[..j] == after;
  }

  // What the difference does.

  /** Applying a difference to an environment: the sets, then the unsets. */
  function Patch(m: map<Name, Bytes>, set_: seq<Pair>, unset: seq<Name>): map<Name, Bytes> {
    map n | n in (m + AsMap(set_)).Keys && n !in unset :: (m + AsMap(set_))[n]
  }

  lemma {:induction false} AddedAre(after: seq<Pair>, before: seq<Pair>, p: Pair)
    ensures p in Added(after, before) <==> p in after && p !in before
  {
    if after != [] {
      AddedAre(after[..|after| - 1], before, p);
      assert after == after[..|after| - 1] + [after[|after| - 1]];
    }
  }

  lemma {:induction false} DroppedAre(before: seq<Pair>, after: seq<Pair>, n: Name)
    ensures n in Dropped(before, after) <==> Named(before, n) && !Named(after, n)
  {
    if before != [] {
      DroppedAre(before[..|before| - 1], after, n);
      assert before == before[..|before| - 1] + [before[|before| - 1]];
    }
  }

  lemma {:induction false} AddedIsSorted(after: seq<Pair>, before: seq<Pair>)
    requires Sorted(after)
    ensures Sorted(Added(after, before))
  {
    if after != [] {
      var front, last := after[..|after| - 1], after[|after| - 1];
      AddedIsSorted(front, before);
      var added := Added(front, before);
      forall k | 0 <= k < |added|
        ensures Less(added[k].name, last.name)
      {
        AddedAre(front, before, added[k]);
        var i :| 0 <= i < |front| && front[i] == added[k];
        assert Less(after[i].name, after[|after| - 1].name);
      }
    }
  }

  /** Applying the difference to `before` yields `after`. */
  lemma {:induction false} DiffYieldsAfter(before: seq<Pair>, after: seq<Pair>)
    requires Sorted(before) && Sorted(after)
    ensures Patch(AsMap(before), Added(after, before), Dropped(before, after)) == AsMap(after)
  {
    var m := Patch(AsMap(before), Added(after, before), Dropped(before, after));
    forall n
      ensures n in m <==> n in AsMap(after)
      ensures n in m && n in AsMap(after) ==> m[n] == AsMap(after)[n]
    {
      PatchedAt(before, after, n);
    }
  }

  lemma {:induction false} PatchedAt(before: seq<Pair>, after: seq<Pair>, n: Name)
    requires Sorted(before) && Sorted(after)
    ensures var m := Patch(AsMap(before), Added(after, before), Dropped(before, after));
            (n in m <==> n in AsMap(after)) && (n in m && n in AsMap(after) ==> m[n] == AsMap(after)[n])
  {
    var added := Added(after, before);
    AsMapNames(before, n);
    AsMapNames(after, n);
    AsMapNames(added, n);
    DroppedAre(before, after, n);
    AddedIsSorted(after, before);
    if n in AsMap(after) {
      var p := Pair(n, AsMap(after)[n]);
      AsMapIsContents(after, p);
      AsMapIsContents(before, p);
      AsMapIsContents(added, p);
      AddedAre(after, before, p);
      if n in AsMap(added) {
        var q := Pair(n, AsMap(added)[n]);
        AsMapIsContents(added, q);
        AddedAre(after, before, q);
        AsMapIsContents(after, q);
      }
    } else if n in AsMap(added) {
      var q :| q in added && q.name == n;
      AddedAre(after, before, q);
    }
  }

  /** Nothing is both set and unset, nothing is set to the value it has, nothing is unset
      that was not there. */
  lemma {:induction false} DiffIsMinimal(before: seq<Pair>, after: seq<Pair>, n: Name)
    requires Sorted(before) && Sorted(after)
    ensures !(Named(Added(after, before), n) && n in Dropped(before, after))
    ensures n in Dropped(before, after) ==> n in AsMap(before)
    ensures Named(Added(after, before), n) && n in AsMap(before) ==> n in AsMap(after) && AsMap(after)[n] != AsMap(before)[n]
  {
    DroppedAre(before, after, n);
    AsMapNames(before, n);
    AsMapNames(after, n);
    if Named(Added(after, before), n) {
      var p :| p in Added(after, before) && p.name == n;
      AddedAre(after, before, p);
      AsMapIsContents(before, p);
      AsMapIsContents(after, p);
    }
  }

  // The dotenv overlay.

  predicate AllBelow(s: seq<Pair>, i: nat, n: Name) {
    i <= |s| && forall k :: 0 <= k < i ==> Less(s[k].name, n)
  }

  predicate AllAbove(s: seq<Pair>, i: nat, n: Name) {
    forall k :: i <= k < |s| ==> Less(n, s[k].name)
  }

  /** `binary_search_by` on the names. */
  method BinarySearch(s: seq<Pair>, n: Name) returns (found: bool, at: nat)
    requires Sorted(s)
    ensures found ==> at < |s| && s[at].name == n
    ensures !found ==> AllBelow(s, at, n) && AllAbove(s, at, n)
  {
    var lo, hi := 0, |s|;
    while lo < hi
      invariant lo <= hi <= |s|
      invariant AllBelow(s, lo, n) && AllAbove(s, hi, n)
    {
      var mid := (lo + hi) / 2;
      if s[mid].name == n {
        return true, mid;
      }
      LessIsTotal(s[mid].name, n);
      if Less(s[mid].name, n) {
        BelowMiddle(s, mid, n);
        lo := mid + 1;
      } else {
        AboveMiddle(s, mid, n);
        hi := mid;
      }
    }
    return false, lo;
  }

  lemma {:induction false} BelowMiddle(s: seq<Pair>, mid: nat, n: Name)
    requires Sorted(s) && mid < |s| && Less(s[mid].name, n)
    ensures AllBelow(s, mid + 1, n)
  {
    forall k | 0 <= k < mid
      ensures Less(s[k].name, n)
    {
      LessIsTransitive(s[k].name, s[mid].name, n);
    }
  }

  lemma {:induction false} AboveMiddle(s: seq<Pair>, mid: nat, n: Name)
    requires Sorted(s) && mid < |s| && Less(n, s[mid].name)
    ensures AllAbove(s, mid, n)
  {
    forall k | mid < k < |s|
      ensures Less(n, s[k].name)
    {
      LessIsTransitive(n, s[mid].name, s[k].name);
    }
  }

  lemma {:induction false} InsertedIsSorted(s: seq<Pair>, at: nat, p: Pair)
    requires Sorted(s) && AllBelow(s, at, p.name) && AllAbove(s, at, p.name)
    ensures Sorted(s[..at] + [p] + s[at..])
  {
    var t := s[..at] + [p] + s[at..];
    forall i, j | 0 <= i < j < |t|
      ensures Less(t[i].name, t[j].name)
    {
      if i < at && j > at {
        assert t[i] == s[i] && t[j] == s[j - 1];
      }
    }
  }

  /** Two sorted snapshots with the same contents are the same map. */
  lemma {:induction false} AsMapOfChange(s: seq<Pair>, t: seq<Pair>, p: Pair)
    requires Sorted(s) && Sorted(t)
    requires p in t && forall q: Pair :: q.name != p.name ==> (q in t <==> q in s)
    ensures AsMap(t) == AsMap(s)[p.name := p.value]
  {
    var m := AsMap(s)[p.name := p.value];
    AsMapIsContents(t, p);
    forall n
      ensures n in AsMap(t) <==> n in m
      ensures n in m && n in AsMap(t) ==> AsMap(t)[n] == m[n]
    {
      if n != p.name {
        if n in m {
          AsMapIsContents(s, Pair(n, m[n]));
          AsMapIsContents(t, Pair(n, m[n]));
        }
        if n in AsMap(t) {
          AsMapIsContents(t, Pair(n, AsMap(t)[n]));
          AsMapIsContents(s, Pair(n, AsMap(t)[n]));
        }
      }
    }
  }

  lemma {:induction false} ReplacedIsSorted(s: seq<Pair>, at: nat, p: Pair)
    requires Sorted(s) && at < |s| && s[at].name == p.name
    ensures Sorted(s[at := p])
  {
  }

  /** One turn of the overlay loop. */
  method OverlayOne(s: seq<Pair>, p: Pair) returns (t: seq<Pair>)
    requires Sorted(s)
    ensures Sorted(t) && AsMap(t) == AsMap(s)[p.name := p.value]
  {
    var found, at := BinarySearch(s, p.name);
    if found {
      t := s[at := p];
      ReplacedIsSorted(s, at, p);
      assert t[at] == p;
      forall q: Pair | q.name != p.name
        ensures q in t <==> q in s
      {
        if q in s {
          var k :| 0 <= k < |s| && s[k] == q;
          assert t[k] == q;
        }
      }
    } else {
      t := s[..at] + [p] + s[at..];
      InsertedIsSorted(s, at, p);
      assert s == s[..at] + s[at..];
    }
    AsMapOfChange(s, t, p);
  }

  lemma {:induction false} OverlayStep(m: map<Name, Bytes>, entries: seq<Pair>, i: nat)
    requires i < |entries|
    ensures m + AsMap(entries[..i + 1]) == (m + AsMap(entries[..i]))[entries[i].name := entries[i].value]
  {
    assert entries[..i + 1][..i] == entries[..i];
  }

  /** The overlay keeps the snapshot sorted and is the last-wins map update, repeated
      keys included. */
  method Overlay(after: seq<Pair>, entries: seq<Pair>) returns (out: seq<Pair>)
    requires Sorted(after)
    ensures Sorted(out)
    ensures AsMap(out) == AsMap(after) + AsMap(entries)
  {
    out := after;
    var i := 0;
    while i < |entries|
      invariant 0 <= i <= |entries|
      invariant Sorted(out) && AsMap(out) == AsMap(after) + AsMap(entries[..i])
    {
      out := OverlayOne(out, entries[i]);
      OverlayStep(AsMap(after), entries, i);
      i := i + 1;
    }
    assert entries[..i] == entries;
  }

  // A lone .env file.

  /** Entries whose value differs from the environment's current one, in order. */
  function DotenvOnly(entries: seq<Pair>, env: map<Name, Bytes>): seq<Pair> {
    if entries == [] then []
    else
      var last := entries[|entries| - 1];
      DotenvOnly(entries[..|entries| - 1], env) + if Holds(env, last) then [] else [last]
  }

  /** A key whose last entry repeats the environment's value has no other value before it. */
  predicate NoRevert(entries: seq<Pair>, env: map<Name, Bytes>) {
    var all := AsMap(entries);
    forall p :: p in entries && p.name in all && Holds(env, Pair(p.name, all[p.name])) ==> Holds(env, p)
  }

  lemma {:induction false} AsMapIsFromPairs(s: seq<Pair>, n: Name)
    requires n in AsMap(s)
    ensures Pair(n, AsMap(s)[n]) in s
  {
    var last := s[|s| - 1];
    if n != last.name {
      AsMapIsFromPairs(s[..|s| - 1], n);
    }
  }

  lemma {:induction false} DotenvOnlyAre(entries: seq<Pair>, env: map<Name, Bytes>, p: Pair)
    ensures p in DotenvOnly(entries, env) <==> p in entries && !Holds(env, p)
  {
    if entries != [] {
      DotenvOnlyAre(entries[..|entries| - 1], env, p);
      assert entries == entries[..|entries| - 1] + [entries[|entries| - 1]];
    }
  }

  lemma {:induction false} LastNewValueIsKept(entries: seq<Pair>, env: map<Name, Bytes>, n: Name)
    requires n in AsMap(entries) && !Holds(env, Pair(n, AsMap(entries)[n]))
    ensures var kept := AsMap(DotenvOnly(entries, env));
            n in kept && kept[n] == AsMap(entries)[n]
  {
    var front, last := entries[..|entries| - 1], entries[|entries| - 1];
    var kept := DotenvOnly(entries, env);
    if n != last.name {
      LastNewValueIsKept(front, env, n);
    }
    if Holds(env, last) {
      assert kept == DotenvOnly(front, env);
    } else {
      assert kept[..|kept| - 1] == DotenvOnly(front, env);
    }
  }

  lemma {:induction false} DotenvOnlyAt(entries: seq<Pair>, env: map<Name, Bytes>, n: Name)
    ensures var kept := AsMap(DotenvOnly(entries, env));
            n in kept ==> n in AsMap(entries) && !Holds(env, Pair(n, kept[n]))
  {
    var kept := DotenvOnly(entries, env);
    if n in AsMap(kept) {
      AsMapIsFromPairs(kept, n);
      DotenvOnlyAre(entries, env, Pair(n, AsMap(kept)[n]));
      AsMapNames(entries, n);
    }
  }

  /** Where no entry for `n` reverts it, the kept entries give its last value. */
  lemma {:induction false} LastWinsAt(entries: seq<Pair>, env: map<Name, Bytes>, n: Name)
    requires NoRevert(entries, env)
    ensures var all := env + AsMap(entries);
            var m := env + AsMap(DotenvOnly(entries, env));
            (n in m <==> n in all) && (n in m && n in all ==> m[n] == all[n])
  {
    DotenvOnlyAt(entries, env, n);
    var kept := AsMap(DotenvOnly(entries, env));
    if n in AsMap(entries) && !Holds(env, Pair(n, AsMap(entries)[n])) {
      LastNewValueIsKept(entries, env, n);
    } else if n in kept {
      AsMapIsFromPairs(DotenvOnly(entries, env), n);
      DotenvOnlyAre(entries, env, Pair(n, kept[n]));
    }
  }

  /** The result of a lone `.env` is the last-wins map update exactly when no key's last
      entry reverts an earlier one to the environment's value: such an entry is skipped as
      already current, and the earlier one stands. */
  lemma {:induction false} DotenvOnlyIsLastWins(entries: seq<Pair>, env: map<Name, Bytes>)
    ensures Patch(env, DotenvOnly(entries, env), []) == env + AsMap(entries) <==> NoRevert(entries, env)
  {
    var kept := AsMap(DotenvOnly(entries, env));
    var m := Patch(env, DotenvOnly(entries, env), []);
    assert m == env + kept;
    if NoRevert(entries, env) {
      forall n
        ensures n in m <==> n in env + AsMap(entries)
        ensures n in m && n in env + AsMap(entries) ==> m[n] == (env + AsMap(entries))[n]
      {
        LastWinsAt(entries, env, n);
      }
    } else {
      var all := AsMap(entries);
      var p :| p in entries && p.name in all && Holds(env, Pair(p.name, all[p.name])) && !Holds(env, p);
      DotenvOnlyAre(entries, env, p);
      AsMapNames(DotenvOnly(entries, env), p.name);
      DotenvOnlyAt(entries, env, p.name);
      assert m[p.name] != (env + all)[p.name];
    }
  }

  lemma {:induction false} RevertedKeyKeepsTheEarlierValue()
    ensures var env := map[[65] := [1]];
            var entries := [Pair([65], [2]), Pair([65], [1])];
            Patch(env, DotenvOnly(entries, env), []) != env + AsMap(entries)
  {
    var env: map<Name, Bytes> := map[[65] := [1]];
    var entries := [Pair([65], [2]), Pair([65], [1])];
    AsMapNames(entries, [65]);
    assert AsMap(entries)[[65]] == [1];
    assert entries[0] in entries && !Holds(env, entries[0]);
    DotenvOnlyIsLastWins(entries, env);
  }
}
