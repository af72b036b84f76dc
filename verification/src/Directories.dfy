/** Where a command was used: the stored representation that shares the entry's
    totals while it can, and the tally it stands for. */
module Directories {
  import opened Text

  const U64_MAX: nat := 0xFFFF_FFFF_FFFF_FFFF

  datatype Usage = Usage(count: nat, timestamp: nat)

  const NO_USAGE := Usage(0, 0)

  /** `Usage::record`: a saturating count and the latest time. */
  function Record(u: Usage, timestamp: nat): Usage {
    Usage(if u.count < U64_MAX then u.count + 1 else u.count,
          if u.timestamp < timestamp then timestamp else u.timestamp)
  }

  // Paths.

  /** A normalized absolute path is its list of components. */
  type Path = seq<Str>

  function Render(path: Path): Str {
    if path == [] then [0x2F] else Tail(path)
  }

  function Tail(path: Path): Str {
    if path == [] then [] else [0x2F] + path[0] + Tail(path[1..])
  }

  /** How many components `cwd` is below `directory`, when it is below it at all: a
      byte prefix test, then the component test. */
  function AncestorDistance(directory: Path, cwd: Path): Option<nat> {
    if !(Render(directory) <= Render(cwd)) then None
    else if directory <= cwd then Some(|cwd| - |directory|)
    else None
  }

  lemma {:induction false} TailGrows(directory: Path, cwd: Path)
    requires directory <= cwd
    ensures Tail(directory) <= Tail(cwd)
  {
    if directory != [] {
      TailGrows(directory[1..], cwd[1..]);
    }
  }

  /** The distance by definition. */
  function Distance(directory: Path, cwd: Path): Option<nat> {
    if directory <= cwd then Some(|cwd| - |directory|) else None
  }

  /** The byte test never rejects an ancestor. */
  lemma {:induction false} AncestorDistanceIsExact(directory: Path, cwd: Path)
    ensures AncestorDistance(directory, cwd) == Distance(directory, cwd)
  {
    if directory <= cwd {
      TailGrows(directory, cwd);
    }
  }

  // One command's uses.

  datatype Use = Use(directory: Option<Path>, timestamp: nat)

  function Total(uses: seq<Use>): Usage {
    if uses == [] then NO_USAGE else Record(Total(uses[..|uses| - 1]), uses[|uses| - 1].timestamp)
  }

  /** The first directory the command was used in. */
  function FirstDirectory(uses: seq<Use>): Option<Path> {
    if uses == [] then None
    else
      var first := FirstDirectory(uses[..|uses| - 1]);
      if first.Some? then first else uses[|uses| - 1].directory
  }

  /** The directory that use `i` counts for: its own, or, for a use without one before
      any directory was known, the first directory. */
  function Credit(uses: seq<Use>, i: nat): Option<Path>
    requires i < |uses|
  {
    if uses[i].directory.Some? then uses[i].directory
    else if FirstDirectory(uses[..i]).None? then FirstDirectory(uses)
    else None
  }

  /** The usage of the first `n` uses that count for `d`. */
  function Credited(uses: seq<Use>, d: Path, n: nat): Usage
    requires n <= |uses|
  {
    if n == 0 then NO_USAGE
    else if Credit(uses, n - 1) == Some(d) then Record(Credited(uses, d, n - 1), uses[n - 1].timestamp)
    else Credited(uses, d, n - 1)
  }

  /** The direct tally for directory `d`. */
  function Tally(uses: seq<Use>, d: Path): Option<Usage> {
    var usage := Credited(uses, d, |uses|);
    if usage.count == 0 then None else Some(usage)
  }

  lemma {:induction false} FirstDirectoryGrows(uses: seq<Use>, n: nat)
    requires n <= |uses|
    ensures FirstDirectory(uses[..n]).Some? ==> FirstDirectory(uses) == FirstDirectory(uses[..n])
  {
    if n < |uses| {
      FirstDirectoryGrows(uses[..|uses| - 1], n);
      assert uses[..|uses| - 1][..n] == uses[..n];
    } else {
      assert uses[..n] == uses;
    }
  }

  lemma {:induction false} NoDirectoryBefore(uses: seq<Use>, i: nat)
    requires i < |uses| && FirstDirectory(uses).None?
    ensures uses[i].directory.None? && FirstDirectory(uses[..i]).None?
  {
    FirstDirectoryGrows(uses, i);
    FirstDirectoryGrows(uses, i + 1);
    assert uses[..i + 1][..i] == uses[..i];
  }

  /** Appending a use changes what earlier uses count for only when it brings the
      first directory. */
  lemma {:induction false} CreditOfAppend(uses: seq<Use>, u: Use, i: nat)
    requires i < |uses|
    ensures Credit(uses + [u], i) == if FirstDirectory(uses).None? then u.directory else Credit(uses, i)
  {
    var more := uses + [u];
    assert more[..i] == uses[..i] && more[..|uses|] == uses;
    if FirstDirectory(uses).None? {
      NoDirectoryBefore(uses, i);
    }
  }

  lemma {:induction false} CreditedOfAppend(uses: seq<Use>, u: Use, d: Path, n: nat)
    requires n <= |uses|
    ensures Credited(uses + [u], d, n) ==
            if FirstDirectory(uses).Some? then Credited(uses, d, n)
            else if u.directory == Some(d) then Total(uses[..n]) else NO_USAGE
  {
    if n > 0 {
      CreditedOfAppend(uses, u, d, n - 1);
      CreditOfAppend(uses, u, n - 1);
      assert uses[..n][..n - 1] == uses[..n - 1];
    }
  }

  lemma {:induction false} NoDirectoryNoCredit(uses: seq<Use>, d: Path, n: nat)
    requires n <= |uses| && FirstDirectory(uses).None?
    ensures Credited(uses, d, n) == NO_USAGE
  {
    if n > 0 {
      NoDirectoryNoCredit(uses, d, n - 1);
      NoDirectoryBefore(uses, n - 1);
    }
  }

  function OrNone(u: Option<Usage>): Usage {
    if u.Some? then u.value else NO_USAGE
  }

  lemma {:induction false} ZeroCountIsNoUsage(uses: seq<Use>, d: Path, n: nat)
    requires n <= |uses| && Credited(uses, d, n).count == 0
    ensures Credited(uses, d, n) == NO_USAGE
  {
    if n > 0 && Credit(uses, n - 1) != Some(d) {
      ZeroCountIsNoUsage(uses, d, n - 1);
    }
  }

  /** One more use: the first directory takes every use so far, another use counts
      for its own directory, and a use without one for none. */
  lemma {:induction false} TallyOfAppend(uses: seq<Use>, u: Use, d: Path)
    ensures Tally(uses + [u], d) ==
            if u.directory != Some(d) then Tally(uses, d)
            else if FirstDirectory(uses).None? then Some(Total(uses + [u]))
            else Some(Record(OrNone(Tally(uses, d)), u.timestamp))
  {
    var more, n := uses + [u], |uses|;
    CreditedOfAppend(uses, u, d, n);
    if Tally(uses, d).None? {
      ZeroCountIsNoUsage(uses, d, n);
    }
    assert uses[..n] == uses && more[..n] == uses;
    if FirstDirectory(uses).None? {
      NoDirectoryNoCredit(uses, d, n);
    }
  }

  lemma {:induction false} TallyNeedsItsDirectory(uses: seq<Use>, d: Path)
    requires forall i :: 0 <= i < |uses| ==> uses[i].directory != Some(d)
    ensures Tally(uses, d).None?
    decreases |uses|
  {
    if uses != [] {
      var front := uses[..|uses| - 1];
      TallyNeedsItsDirectory(front, d);
      TallyOfAppend(front, uses[|uses| - 1], d);
      assert uses == front + [uses[|uses| - 1]];
    }
  }

  // The stored representation.

  const DIRECTORY_NONE: nat := 0xFFFF_FFFF
  const DIRECTORY_DETAILED: nat := 0xFFFF_FFFE

  datatype DirectoryDetail =
    | Tracked(code: nat, usage: Usage)
    | Many(usages: map<nat, Usage>)
  {
    function Get(c: nat): Option<Usage> {
      match this
      case Tracked(code, usage) => if code == c then Some(usage) else None
      case Many(usages) => if c in usages then Some(usages[c]) else None
    }
  }

  /** An entry's directory code, the detail a `DIRECTORY_DETAILED` code stands for, and
      the entry's totals. */
  datatype Stored = Stored(directories: nat, detail: Option<DirectoryDetail>, total: Usage) {

    /** `directory_usage`. */
    function Lookup(code: nat): Option<Usage> {
      if directories == DIRECTORY_NONE then None
      else if directories == DIRECTORY_DETAILED then (if detail.None? then None else detail.value.Get(code))
      else if directories == code then Some(total)
      else None
    }

    /** Every code in use names one of `n` paths. */
    ghost predicate Coded(n: nat) {
      && n <= DIRECTORY_DETAILED
      && (directories < n || directories == DIRECTORY_NONE || directories == DIRECTORY_DETAILED)
      && (detail.Some? <==> directories == DIRECTORY_DETAILED)
      && (detail.Some? ==> forall c: nat :: detail.value.Get(c).Some? ==> c < n)
    }
  }

  ghost predicate AllInterned(uses: seq<Use>, paths: seq<Path>) {
    forall i :: 0 <= i < |uses| && uses[i].directory.Some? ==> uses[i].directory.value in paths
  }

  /** The stored form answers every directory question like the direct tally. */
  ghost predicate Represents(uses: seq<Use>, stored: Stored, paths: seq<Path>) {
    && stored.total == Total(uses)
    && (stored.directories == DIRECTORY_NONE <==> FirstDirectory(uses).None?)
    && stored.Coded(|paths|)
    && AllInterned(uses, paths)
    && (forall c :: 0 <= c < |paths| ==> stored.Lookup(c) == Tally(uses, paths[c]))
  }

  /** What recording a use in directory `code` must do to every lookup. */
  ghost predicate Recorded(before: Stored, after: Stored, code: nat, timestamp: nat) {
    && after.total == Record(before.total, timestamp)
    && after.directories != DIRECTORY_NONE
    && forall c :: 0 <= c < DIRECTORY_DETAILED ==>
         after.Lookup(c) ==
         if c != code then before.Lookup(c)
         else if before.directories == DIRECTORY_NONE then Some(after.total)
         else Some(Record(OrNone(before.Lookup(c)), timestamp))
  }

  /** What a use without a directory must do to every lookup. */
  ghost predicate Detached(before: Stored, after: Stored, timestamp: nat) {
    && after.total == Record(before.total, timestamp)
    && (after.directories == DIRECTORY_NONE <==> before.directories == DIRECTORY_NONE)
    && forall c :: 0 <= c < DIRECTORY_DETAILED ==> after.Lookup(c) == before.Lookup(c)
  }

  ghost predicate Distinct(paths: seq<Path>) {
    forall i, j :: 0 <= i < j < |paths| ==> paths[i] != paths[j]
  }

  lemma {:induction false} AppendUse(uses: seq<Use>, u: Use)
    ensures Total(uses + [u]) == Record(Total(uses), u.timestamp)
    ensures FirstDirectory(uses + [u]) == if FirstDirectory(uses).Some? then FirstDirectory(uses) else u.directory
  {
    assert (uses + [u])[..|uses|] == uses;
  }

  /** Recording keeps the stored form equal to the tally. */
  lemma {:induction false} RecordedRepresents(uses: seq<Use>, before: Stored, after: Stored, paths: seq<Path>, code: nat, timestamp: nat)
    requires Represents(uses, before, paths) && Distinct(paths) && code < |paths|
    requires Recorded(before, after, code, timestamp) && after.Coded(|paths|)
    ensures Represents(uses + [Use(Some(paths[code]), timestamp)], after, paths)
  {
    var u := Use(Some(paths[code]), timestamp);
    AppendUse(uses, u);
    forall c | 0 <= c < |paths|
      ensures after.Lookup(c) == Tally(uses + [u], paths[c])
    {
      TallyOfAppend(uses, u, paths[c]);
      assert paths[c] == paths[code] <==> c == code;
    }
  }

  lemma {:induction false} DetachedRepresents(uses: seq<Use>, before: Stored, after: Stored, paths: seq<Path>, timestamp: nat)
    requires Represents(uses, before, paths)
    requires Detached(before, after, timestamp) && after.Coded(|paths|)
    ensures Represents(uses + [Use(None, timestamp)], after, paths)
  {
    var u := Use(None, timestamp);
    AppendUse(uses, u);
    forall c | 0 <= c < |paths|
      ensures after.Lookup(c) == Tally(uses + [u], paths[c])
    {
      TallyOfAppend(uses, u, paths[c]);
    }
  }

  /** A newly interned path is recorded nowhere yet. */
  lemma {:induction false} InternRepresents(uses: seq<Use>, stored: Stored, paths: seq<Path>, path: Path)
    requires Represents(uses, stored, paths) && path !in paths && |paths| < DIRECTORY_DETAILED
    ensures Represents(uses, stored, paths + [path])
  {
    var more := paths + [path];
    forall c | 0 <= c < |more|
      ensures stored.Lookup(c) == Tally(uses, more[c])
    {
      if c == |paths| {
        TallyNeedsItsDirectory(uses, path);
        assert stored.Lookup(c).None?;
      }
    }
  }
}
