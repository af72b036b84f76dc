/** What a tally counts, in terms of the uses themselves: how many, and the latest. */
module Tallies {
  import opened Text
  import opened Directories

  function Capped(n: nat): nat {
    if n < U64_MAX then n else U64_MAX
  }

  /** The use was in `d`, or it had no directory, none before it had, and the first after it
      that has one was in `d`. */
  ghost predicate CountsFor(uses: seq<Use>, i: nat, d: Path) {
    i < |uses|
    && (uses[i].directory == Some(d)
        || (NoneUpTo(uses, i + 1) && exists k :: i < k < |uses| && uses[k].directory == Some(d) && NoneUpTo(uses, k)))
  }

  /** The first `n` uses have no directory. */
  predicate NoneUpTo(uses: seq<Use>, n: nat) {
    forall j :: 0 <= j < n && j < |uses| ==> uses[j].directory.None?
  }

  /** The uses among the first `n` that count for `d`. */
  ghost function Counted(uses: seq<Use>, d: Path, n: nat): set<nat> {
    set i: nat | i < n && CountsFor(uses, i, d)
  }

  /** `t` is the time of the latest of the uses in `s`. */
  ghost predicate IsLatest(uses: seq<Use>, s: set<nat>, t: nat) {
    && (exists i :: i in s && i < |uses| && uses[i].timestamp == t)
    && (forall i :: i in s && i < |uses| ==> uses[i].timestamp <= t)
  }

  lemma {:induction false} FirstDirectoryIs(uses: seq<Use>)
    ensures FirstDirectory(uses).None? <==> NoneUpTo(uses, |uses|)
    ensures forall d :: FirstDirectory(uses) == Some(d) ==>
              exists k :: 0 <= k < |uses| && uses[k].directory == Some(d) && NoneUpTo(uses, k)
  {
    if uses != [] {
      var front, last := uses[..|uses| - 1], uses[|uses| - 1];
      FirstDirectoryIs(front);
      assert forall n: nat :: n < |uses| && NoneUpTo(front, n) ==> NoneUpTo(uses, n);
      assert NoneUpTo(uses, |uses|) ==> NoneUpTo(front, |front|);
      forall d | FirstDirectory(uses) == Some(d)
        ensures exists k :: 0 <= k < |uses| && uses[k].directory == Some(d) && NoneUpTo(uses, k)
      {
        if FirstDirectory(front).Some? {
          var k :| 0 <= k < |front| && front[k].directory == Some(d) && NoneUpTo(front, k);
          assert uses[k].directory == Some(d) && NoneUpTo(uses, k);
        } else {
          assert uses[|uses| - 1].directory == Some(d) && NoneUpTo(uses, |uses| - 1);
        }
      }
    }
  }

  /** At most one place is the first with a directory. */
  lemma {:induction false} FirstPlaceIsOne(uses: seq<Use>, j: nat, k: nat)
    requires j < |uses| && k < |uses| && uses[j].directory.Some? && uses[k].directory.Some?
    requires NoneUpTo(uses, j) && NoneUpTo(uses, k)
    ensures j == k
  {
  }

  lemma {:induction false} CreditIs(uses: seq<Use>, i: nat, d: Path)
    requires i < |uses|
    ensures Credit(uses, i) == Some(d) <==> CountsFor(uses, i, d)
  {
    if uses[i].directory.None? {
      FirstDirectoryIs(uses[..i]);
      FirstDirectoryIs(uses);
      assert NoneUpTo(uses[..i], i) <==> NoneUpTo(uses, i + 1);
      if NoneUpTo(uses, i + 1) && FirstDirectory(uses).Some? {
        var first := FirstDirectory(uses).value;
        var k :| 0 <= k < |uses| && uses[k].directory == Some(first) && NoneUpTo(uses, k);
        assert k > i;
        if CountsFor(uses, i, d) {
          var m :| i < m < |uses| && uses[m].directory == Some(d) && NoneUpTo(uses, m);
          FirstPlaceIsOne(uses, k, m);
        }
      }
    }
  }

  lemma {:induction false} CountedStep(uses: seq<Use>, d: Path, n: nat)
    requires n < |uses|
    ensures Counted(uses, d, n + 1) == Counted(uses, d, n) + if CountsFor(uses, n, d) then {n} else {}
    ensures n !in Counted(uses, d, n)
  {
  }

  lemma {:induction false} LatestOfMore(uses: seq<Use>, s: set<nat>, t: nat, n: nat)
    requires n < |uses| && (if s == {} then t == 0 else IsLatest(uses, s, t))
    ensures IsLatest(uses, s + {n}, if t < uses[n].timestamp then uses[n].timestamp else t)
  {
    var more := s + {n};
    assert n in more;
    if s != {} {
      var i :| i in s && i < |uses| && uses[i].timestamp == t;
      assert i in more;
    }
  }

  lemma {:induction false} CreditedIs(uses: seq<Use>, d: Path, n: nat)
    requires n <= |uses|
    ensures var s := Counted(uses, d, n);
            var u := Credited(uses, d, n);
            u.count == Capped(|s|) && if s == {} then u.timestamp == 0 else IsLatest(uses, s, u.timestamp)
  {
    if n > 0 {
      CreditedIs(uses, d, n - 1);
      CountedStep(uses, d, n - 1);
      CreditIs(uses, n - 1, d);
      LatestOfMore(uses, Counted(uses, d, n - 1), Credited(uses, d, n - 1).timestamp, n - 1);
    } else {
      assert Counted(uses, d, 0) == {};
    }
  }

  /** There is a tally exactly when some use counts for the directory; it is their number,
      up to the greatest `u64`, and the time of the latest of them. */
  lemma {:induction false} TallyIsCount(uses: seq<Use>, d: Path)
    ensures var s := Counted(uses, d, |uses|);
            && (Tally(uses, d).Some? <==> s != {})
            && (s != {} ==> Tally(uses, d).value.count == Capped(|s|) && IsLatest(uses, s, Tally(uses, d).value.timestamp))
  {
    CreditedIs(uses, d, |uses|);
    var s := Counted(uses, d, |uses|);
    assert s != {} <==> |s| > 0;
  }

  /** The total counts every use. */
  lemma {:induction false} TotalIsCount(uses: seq<Use>)
    ensures Total(uses).count == Capped(|uses|)
    ensures forall i :: 0 <= i < |uses| ==> uses[i].timestamp <= Total(uses).timestamp
    ensures uses != [] ==> exists i :: 0 <= i < |uses| && uses[i].timestamp == Total(uses).timestamp
  {
    if uses != [] {
      var front, last := uses[..|uses| - 1], |uses| - 1;
      TotalIsCount(front);
      if front != [] {
        var i :| 0 <= i < |front| && front[i].timestamp == Total(front).timestamp;
        assert uses[i].timestamp == Total(front).timestamp;
      }
      assert uses[last].timestamp == Total(uses).timestamp || Total(uses).timestamp == Total(front).timestamp;
      forall i | 0 <= i < |uses|
        ensures uses[i].timestamp <= Total(uses).timestamp
      {
        assert i < last ==> front[i] == uses[i];
      }
    }
  }
}
