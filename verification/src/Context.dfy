/** Directory context of a candidate (`context_usage`): the nearest recorded
    directory that is `cwd` or an ancestor of it. */
module Context {
  import opened Text
  import opened Directories

  const USIZE_MAX: int := 0xFFFF_FFFF_FFFF_FFFF

  ghost predicate PathOk(paths: seq<Path>, codes: map<Path, nat>, p: Path) {
    p in codes ==> codes[p] < |paths| && paths[codes[p]] == p
  }

  ghost predicate CodeOk(paths: seq<Path>, codes: map<Path, nat>, c: nat)
    requires c < |paths|
  {
    paths[c] in codes && codes[paths[c]] == c
  }

  /** The code table and the path table are inverse. */
  ghost predicate Interned(paths: seq<Path>, codes: map<Path, nat>) {
    && (forall p :: PathOk(paths, codes, p))
    && (forall c :: 0 <= c < |paths| ==> CodeOk(paths, codes, c))
  }

  lemma {:induction false} InternGrows(paths: seq<Path>, codes: map<Path, nat>, path: Path)
    requires Interned(paths, codes) && path !in codes
    ensures path !in paths && Interned(paths + [path], codes[path := |paths|])
  {
    forall c | 0 <= c < |paths|
      ensures paths[c] != path
    {
      assert CodeOk(paths, codes, c);
    }
    var more, table := paths + [path], codes[path := |paths|];
    forall c | 0 <= c < |more|
      ensures CodeOk(more, table, c)
    {
      assert c < |paths| ==> CodeOk(paths, codes, c);
    }
    forall p
      ensures PathOk(more, table, p)
    {
      assert PathOk(paths, codes, p);
    }
  }

  /** The usage recorded for the directory, if there is one. */
  function RecordedAt(stored: Stored, codes: map<Path, nat>, directory: Path): Option<Usage> {
    if directory in codes then stored.Lookup(codes[directory]) else None
  }

  /** The definition: of `cwd[..n]`, its parent, and so on, the first recorded one. */
  function Nearest(stored: Stored, codes: map<Path, nat>, cwd: Path, n: nat): (int, Usage)
    requires n <= |cwd|
  {
    var usage := RecordedAt(stored, codes, cwd[..n]);
    if usage.Some? then (USIZE_MAX - (|cwd| - n), usage.value)
    else if n == 0 then (0, stored.total)
    else Nearest(stored, codes, cwd, n - 1)
  }

  function ContextUsage(stored: Stored, codes: map<Path, nat>, cwd: Option<Path>): (int, Usage) {
    if cwd.None? then (0, stored.total) else Nearest(stored, codes, cwd.value, |cwd.value|)
  }

  ghost predicate NoneRecorded(stored: Stored, codes: map<Path, nat>, cwd: Path, from: nat, to: nat)
    requires to <= |cwd|
  {
    forall m :: from <= m <= to ==> RecordedAt(stored, codes, cwd[..m]).None?
  }

  lemma {:induction false} NearestIs(stored: Stored, codes: map<Path, nat>, cwd: Path, n: nat, top: nat)
    requires n <= top <= |cwd| && RecordedAt(stored, codes, cwd[..n]).Some?
    requires NoneRecorded(stored, codes, cwd, n + 1, top)
    ensures Nearest(stored, codes, cwd, top) ==
            (USIZE_MAX - (|cwd| - n), RecordedAt(stored, codes, cwd[..n]).value)
    decreases top
  {
    if n < top {
      NearestIs(stored, codes, cwd, n, top - 1);
    }
  }

  lemma {:induction false} NearestIsNone(stored: Stored, codes: map<Path, nat>, cwd: Path, top: nat)
    requires top <= |cwd| && NoneRecorded(stored, codes, cwd, 0, top)
    ensures Nearest(stored, codes, cwd, top) == (0, stored.total)
    decreases top
  {
    if top > 0 {
      NearestIsNone(stored, codes, cwd, top - 1);
    }
  }

  /** Two recorded directories at the same distance above `cwd` are the same. */
  lemma {:induction false} OneDirectoryPerDistance(paths: seq<Path>, codes: map<Path, nat>, cwd: Path, c: nat, d: nat)
    requires Interned(paths, codes) && c < |paths| && d < |paths|
    requires Distance(paths[c], cwd).Some? && Distance(paths[c], cwd) == Distance(paths[d], cwd)
    ensures c == d
  {
    assert CodeOk(paths, codes, c) && CodeOk(paths, codes, d);
    assert paths[c] == cwd[..|paths[c]|] && paths[d] == cwd[..|paths[d]|];
  }

  /** A single recorded code. */
  method OneCode(stored: Stored, paths: seq<Path>, ghost codes: map<Path, nat>, cwd: Path, code: nat, usage: Usage)
    returns (r: (int, Usage))
    requires Interned(paths, codes) && code < |paths|
    requires forall c :: 0 <= c < |paths| ==> stored.Lookup(c) == if c == code then Some(usage) else None
    ensures r == Nearest(stored, codes, cwd, |cwd|)
  {
    AncestorDistanceIsExact(paths[code], cwd);
    var distance := AncestorDistance(paths[code], cwd);
    assert CodeOk(paths, codes, code);
    if distance.Some? {
      assert cwd[..|paths[code]|] == paths[code];
      forall m | 0 <= m <= |cwd| && m != |paths[code]|
        ensures RecordedAt(stored, codes, cwd[..m]).None?
      {
        assert PathOk(paths, codes, cwd[..m]) && |cwd[..m]| == m;
      }
      NearestIs(stored, codes, cwd, |paths[code]|, |cwd|);
      return (USIZE_MAX - distance.value, usage);
    }
    assert forall m :: 0 <= m <= |cwd| ==> cwd[..m] <= cwd && PathOk(paths, codes, cwd[..m]);
    NearestIsNone(stored, codes, cwd, |cwd|);
    return (0, stored.total);
  }

  /** Walk the ancestors of `cwd` and look each one up. */
  method WalkAncestors(stored: Stored, codes: map<Path, nat>, usages: map<nat, Usage>, cwd: Path)
    returns (r: (int, Usage))
    requires stored.directories == DIRECTORY_DETAILED && stored.detail == Some(Many(usages))
    ensures r == Nearest(stored, codes, cwd, |cwd|)
  {
    for distance := 0 to |cwd| + 1
      invariant NoneRecorded(stored, codes, cwd, |cwd| + 1 - distance, |cwd|)
    {
      var directory := cwd[..|cwd| - distance];
      if directory in codes && codes[directory] in usages {
        NearestIs(stored, codes, cwd, |cwd| - distance, |cwd|);
        return (USIZE_MAX - distance, usages[codes[directory]]);
      }
    }
    NearestIsNone(stored, codes, cwd, |cwd|);
    return (0, stored.total);
  }

  /** What the scan knows: no code seen so far is nearer than `nearest`, found at `at`. */
  ghost predicate NearestSeen(paths: seq<Path>, usages: map<nat, Usage>, cwd: Path, seen: set<nat>,
                              nearest: Option<(nat, Usage)>, at: nat)
    requires forall c :: c in usages ==> c < |paths|
  {
    && seen <= usages.Keys
    && (nearest.None? ==> forall c :: c in seen ==> Distance(paths[c], cwd).None?)
    && (nearest.Some? ==>
          && at in seen && Distance(paths[at], cwd) == Some(nearest.value.0) && usages[at] == nearest.value.1
          && (forall c :: c in seen && Distance(paths[c], cwd).Some? ==>
                nearest.value.0 <= Distance(paths[c], cwd).value))
  }

  /** Scan the recorded directories, in whatever order the map yields them. */
  method ScanDirectories(paths: seq<Path>, usages: map<nat, Usage>, cwd: Path)
    returns (nearest: Option<(nat, Usage)>, ghost at: nat)
    requires forall c :: c in usages ==> c < |paths|
    ensures NearestSeen(paths, usages, cwd, usages.Keys, nearest, at)
  {
    nearest, at := None, 0;
    var todo := usages.Keys;
    while todo != {}
      invariant todo <= usages.Keys && NearestSeen(paths, usages, cwd, usages.Keys - todo, nearest, at)
      decreases |todo|
    {
      ghost var seen := usages.Keys - todo;
      var code :| code in todo;
      todo := todo - {code};
      assert usages.Keys - todo == seen + {code};
      AncestorDistanceIsExact(paths[code], cwd);
      var distance := AncestorDistance(paths[code], cwd);
      if distance.Some? && (nearest.None? || distance.value < nearest.value.0) {
        nearest, at := Some((distance.value, usages[code])), code;
      }
    }
    assert usages.Keys - todo == usages.Keys;
  }

  lemma {:induction false} RecordedIsSeen(stored: Stored, paths: seq<Path>, codes: map<Path, nat>, usages: map<nat, Usage>, cwd: Path,
                       nearest: Option<(nat, Usage)>, at: nat, m: nat)
    requires Interned(paths, codes) && forall c :: c in usages ==> c < |paths|
    requires stored.directories == DIRECTORY_DETAILED && stored.detail == Some(Many(usages))
    requires NearestSeen(paths, usages, cwd, usages.Keys, nearest, at)
    requires m <= |cwd| && RecordedAt(stored, codes, cwd[..m]).Some?
    ensures nearest.Some? && nearest.value.0 <= |cwd| - m
  {
    assert PathOk(paths, codes, cwd[..m]);
  }

  lemma {:induction false} SeenIsRecorded(stored: Stored, paths: seq<Path>, codes: map<Path, nat>, usages: map<nat, Usage>, cwd: Path, c: nat)
    requires Interned(paths, codes) && c in usages && c < |paths|
    requires stored.directories == DIRECTORY_DETAILED && stored.detail == Some(Many(usages))
    requires Distance(paths[c], cwd).Some?
    ensures |paths[c]| <= |cwd| && Distance(paths[c], cwd).value == |cwd| - |paths[c]|
    ensures RecordedAt(stored, codes, cwd[..|paths[c]|]) == Some(usages[c])
  {
    assert CodeOk(paths, codes, c) && cwd[..|paths[c]|] == paths[c];
  }

  lemma {:induction false} NoneNearer(stored: Stored, paths: seq<Path>, codes: map<Path, nat>, usages: map<nat, Usage>, cwd: Path,
                   nearest: Option<(nat, Usage)>, at: nat, n: nat)
    requires Interned(paths, codes) && forall c :: c in usages ==> c < |paths|
    requires stored.directories == DIRECTORY_DETAILED && stored.detail == Some(Many(usages))
    requires NearestSeen(paths, usages, cwd, usages.Keys, nearest, at)
    requires nearest.Some? ==> |cwd| - nearest.value.0 < n
    ensures NoneRecorded(stored, codes, cwd, n, |cwd|)
  {
    forall m | n <= m <= |cwd| && RecordedAt(stored, codes, cwd[..m]).Some?
      ensures false
    {
      RecordedIsSeen(stored, paths, codes, usages, cwd, nearest, at, m);
    }
  }

  /** The scan's answer does not depend on the order, and is the nearest directory. */
  lemma {:induction false} ScanFindsNearest(stored: Stored, paths: seq<Path>, codes: map<Path, nat>, usages: map<nat, Usage>, cwd: Path,
                         nearest: Option<(nat, Usage)>, at: nat)
    requires Interned(paths, codes) && forall c :: c in usages ==> c < |paths|
    requires stored.directories == DIRECTORY_DETAILED && stored.detail == Some(Many(usages))
    requires NearestSeen(paths, usages, cwd, usages.Keys, nearest, at)
    ensures Nearest(stored, codes, cwd, |cwd|) ==
            if nearest.Some? then (USIZE_MAX - nearest.value.0, nearest.value.1) else (0, stored.total)
  {
    if nearest.None? {
      NoneNearer(stored, paths, codes, usages, cwd, nearest, at, 0);
      NearestIsNone(stored, codes, cwd, |cwd|);
    } else {
      SeenIsRecorded(stored, paths, codes, usages, cwd, at);
      var n: nat := |paths[at]|;
      NoneNearer(stored, paths, codes, usages, cwd, nearest, at, n + 1);
      NearestAt(stored, codes, cwd, n, usages[at]);
    }
  }

  lemma {:induction false} NearestAt(stored: Stored, codes: map<Path, nat>, cwd: Path, n: nat, usage: Usage)
    requires n <= |cwd| && RecordedAt(stored, codes, cwd[..n]) == Some(usage)
    requires NoneRecorded(stored, codes, cwd, n + 1, |cwd|)
    ensures Nearest(stored, codes, cwd, |cwd|) == (USIZE_MAX - (|cwd| - n), usage)
  {
    NearestIs(stored, codes, cwd, n, |cwd|);
  }

  /** `context_usage`: whichever side is smaller is walked; the answer is the same. */
  method FindContextUsage(stored: Stored, paths: seq<Path>, codes: map<Path, nat>, cwd: Option<Path>)
    returns (r: (int, Usage))
    requires Interned(paths, codes) && stored.Coded(|paths|)
    ensures r == ContextUsage(stored, codes, cwd)
  {
    if cwd.None? {
      return (0, stored.total);
    }
    var depth := |cwd.value| + 1;
    if stored.directories == DIRECTORY_NONE {
      NearestIsNone(stored, codes, cwd.value, |cwd.value|);
      return (0, stored.total);
    }
    if stored.directories != DIRECTORY_DETAILED {
      r := OneCode(stored, paths, codes, cwd.value, stored.directories, stored.total);
      return;
    }
    match stored.detail.value
    case Tracked(code, usage) =>
      assert stored.detail.value.Get(code).Some?;
      r := OneCode(stored, paths, codes, cwd.value, code, usage);
    case Many(usages) =>
      assert forall c :: c in usages ==> stored.detail.value.Get(c).Some?;
      if |usages| <= depth {
        var nearest, at := ScanDirectories(paths, usages, cwd.value);
        ScanFindsNearest(stored, paths, codes, usages, cwd.value, nearest, at);
        r := if nearest.Some? then (USIZE_MAX - nearest.value.0, nearest.value.1) else (0, stored.total);
      } else {
        r := WalkAncestors(stored, codes, usages, cwd.value);
      }
  }

  // The answer in terms of the uses themselves.

  lemma {:induction false} RecordedIsTally(uses: seq<Use>, stored: Stored, paths: seq<Path>, codes: map<Path, nat>, d: Path)
    requires Represents(uses, stored, paths) && Interned(paths, codes)
    ensures RecordedAt(stored, codes, d) == Tally(uses, d)
  {
    assert PathOk(paths, codes, d);
    if d !in codes {
      forall c | 0 <= c < |paths|
        ensures paths[c] != d
      {
        assert CodeOk(paths, codes, c);
      }
      assert d !in paths;
      TallyNeedsItsDirectory(uses, d);
    }
  }

  /** Of `cwd[..n]`, its parent, and so on, the first with a tally. */
  function NearestTally(uses: seq<Use>, cwd: Path, n: nat): (int, Usage)
    requires n <= |cwd|
  {
    var usage := Tally(uses, cwd[..n]);
    if usage.Some? then (USIZE_MAX - (|cwd| - n), usage.value)
    else if n == 0 then (0, Total(uses))
    else NearestTally(uses, cwd, n - 1)
  }

  /** Either strategy answers from the direct tally of every use ever recorded. */
  lemma {:induction false} NearestIsFromUses(uses: seq<Use>, stored: Stored, paths: seq<Path>, codes: map<Path, nat>, cwd: Path, n: nat)
    requires Represents(uses, stored, paths) && Interned(paths, codes) && n <= |cwd|
    ensures Nearest(stored, codes, cwd, n) == NearestTally(uses, cwd, n)
  {
    RecordedIsTally(uses, stored, paths, codes, cwd[..n]);
    if n > 0 {
      NearestIsFromUses(uses, stored, paths, codes, cwd, n - 1);
    }
  }
}
