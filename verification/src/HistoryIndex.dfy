/** The in-memory history: interned commands, usage, and the tables over them. */
module HistoryIndex {
  import opened Text
  import opened Directories
  import opened Tallies
  import opened Context
  import opened LatestTable
  import opened SessionList
  import Tiers

  const U32_MAX: nat := 0xFFFF_FFFF

  datatype Occurrence = Occurrence(id: nat, command: Str, timestamp: nat, cwd: Option<Path>)

  /** `sessionPosition` is one-based; zero means the command has no session slot. */
  datatype EntryUsage = EntryUsage(latestId: nat, letters: Scalar, total: Usage, directories: nat, sessionPosition: nat)

  function Ids(usages: seq<EntryUsage>): (ids: seq<nat>)
    ensures |ids| == |usages| && forall i :: 0 <= i < |ids| ==> ids[i] == usages[i].latestId
  {
    seq(|usages|, i requires 0 <= i < |usages| => usages[i].latestId)
  }

  function Positions(usages: seq<EntryUsage>): (positions: seq<nat>)
    ensures |positions| == |usages| && forall i :: 0 <= i < |positions| ==> positions[i] == usages[i].sessionPosition
  {
    seq(|usages|, i requires 0 <= i < |usages| => usages[i].sessionPosition)
  }

  function DetailOf(details: map<nat, DirectoryDetail>, i: nat): Option<DirectoryDetail> {
    if i in details then Some(details[i]) else None
  }

  function StoredAt(usage: EntryUsage, detail: Option<DirectoryDetail>): Stored {
    Stored(usage.directories, detail, usage.total)
  }

  // What the index stands for: the occurrences applied since it was last cleared.

  /** The distinct commands, in order of first use. */
  function Commands(log: seq<Occurrence>): seq<Str> {
    if log == [] then []
    else Seen(Commands(log[..|log| - 1]), log[|log| - 1].command)
  }

  function Seen(commands: seq<Str>, command: Str): seq<Str> {
    if command in commands then commands else commands + [command]
  }

  function UseOf(o: Occurrence): Use {
    Use(o.cwd, o.timestamp)
  }

  function UsesOf(log: seq<Occurrence>, command: Str): seq<Use> {
    if log == [] then []
    else
      var last := log[|log| - 1];
      UsesOf(log[..|log| - 1], command) + (if last.command == command then [UseOf(last)] else [])
  }

  /** The id of the command's last use; zero when it has none. */
  function LatestId(log: seq<Occurrence>, command: Str): nat {
    if log == [] then 0
    else if log[|log| - 1].command == command then log[|log| - 1].id
    else LatestId(log[..|log| - 1], command)
  }

  ghost predicate IdsWithin(log: seq<Occurrence>, bound: nat) {
    forall o :: o in log ==> 0 < o.id <= bound
  }

  lemma {:induction false} LatestIdWithin(log: seq<Occurrence>, bound: nat, command: Str)
    requires IdsWithin(log, bound)
    ensures LatestId(log, command) <= bound
    ensures command in Commands(log) ==> LatestId(log, command) > 0
  {
    if log != [] {
      LatestIdWithin(log[..|log| - 1], bound, command);
      assert log[|log| - 1] in log;
    }
  }

  ghost predicate DistinctTexts(commands: seq<Str>) {
    forall i, j :: 0 <= i < j < |commands| ==> commands[i] != commands[j]
  }

  /** One entry tells the log's story of its command. */
  ghost predicate EntryOk(log: seq<Occurrence>, command: Str, usage: EntryUsage, detail: Option<DirectoryDetail>,
                          paths: seq<Path>) {
    && usage.letters == Tiers.LetterMask(command)
    && usage.latestId == LatestId(log, command)
    && Represents(UsesOf(log, command), StoredAt(usage, detail), paths)
  }

  ghost predicate EntriesOk(log: seq<Occurrence>, commands: seq<Str>, usages: seq<EntryUsage>,
                            details: map<nat, DirectoryDetail>, paths: seq<Path>) {
    && |usages| == |commands|
    && (forall k :: k in details ==> k < |usages|)
    && forall i {:trigger EntryOk(log, commands[i], usages[i], DetailOf(details, i), paths)} ::
         0 <= i < |commands| ==> EntryOk(log, commands[i], usages[i], DetailOf(details, i), paths)
  }

  function Slice(arena: Str, offset: (nat, nat)): Str
    requires offset.0 + offset.1 <= |arena|
  {
    arena[offset.0..offset.0 + offset.1]
  }

  /** Entry `i` is `command`, and its hash leads to some entry. */
  ghost predicate TextOk(arena: Str, offset: (nat, nat), index: map<nat, nat>, hash: Str -> nat, command: Str) {
    && offset.0 + offset.1 <= |arena| && Slice(arena, offset) == command
    && hash(command) in index
  }

  /** The packed text and the hash index hold exactly `commands`. */
  ghost predicate TableOk(arena: Str, offsets: seq<(nat, nat)>, index: map<nat, nat>, hash: Str -> nat,
                          commands: seq<Str>) {
    && |offsets| == |commands|
    && (forall i {:trigger TextOk(arena, offsets[i], index, hash, commands[i])} ::
          0 <= i < |offsets| ==> TextOk(arena, offsets[i], index, hash, commands[i]))
    && (forall h :: h in index ==> index[h] < |commands|)
    && DistinctTexts(commands)
  }

  lemma {:induction false} AppendLog(log: seq<Occurrence>, o: Occurrence, command: Str)
    ensures UsesOf(log + [o], command) == UsesOf(log, command) + if o.command == command then [UseOf(o)] else []
    ensures LatestId(log + [o], command) == if o.command == command then o.id else LatestId(log, command)
    ensures Commands(log + [o]) == Seen(Commands(log), o.command)
  {
    assert (log + [o])[..|log|] == log;
  }

  lemma {:induction false} UnusedCommand(log: seq<Occurrence>, command: Str)
    requires command !in Commands(log)
    ensures UsesOf(log, command) == [] && LatestId(log, command) == 0
  {
    if log != [] {
      UnusedCommand(log[..|log| - 1], command);
    }
  }

  lemma {:induction false} CommandsAreDistinct(log: seq<Occurrence>)
    ensures DistinctTexts(Commands(log))
  {
    if log != [] {
      CommandsAreDistinct(log[..|log| - 1]);
    }
  }

  /** A new entry starts with no use. */
  lemma {:induction false} NewEntryOk(log: seq<Occurrence>, command: Str, paths: seq<Path>)
    requires command !in Commands(log) && |paths| <= DIRECTORY_DETAILED
    ensures EntryOk(log, command, EntryUsage(0, Tiers.LetterMask(command), NO_USAGE, DIRECTORY_NONE, 0), None, paths)
  {
    UnusedCommand(log, command);
    forall c | 0 <= c < |paths|
      ensures Tally([], paths[c]).None?
    {
    }
  }

  /** Appending a text to the arena keeps the texts before it. */
  lemma {:induction false} TableGrows(arena: Str, offsets: seq<(nat, nat)>, index: map<nat, nat>, hash: Str -> nat, commands: seq<Str>,
                   text: Str)
    requires TableOk(arena, offsets, index, hash, commands) && text !in commands
    ensures TableOk(arena + text, offsets + [(|arena|, |text|)], index[hash(text) := |commands|], hash, commands + [text])
  {
    var longer, more := arena + text, offsets + [(|arena|, |text|)];
    var index', commands' := index[hash(text) := |commands|], commands + [text];
    forall i | 0 <= i < |more|
      ensures TextOk(longer, more[i], index', hash, commands'[i])
    {
      if i < |offsets| {
        assert TextOk(arena, offsets[i], index, hash, commands[i]);
        assert Slice(longer, offsets[i]) == Slice(arena, offsets[i]);
      }
    }
  }

  lemma {:induction false} EntriesGrow(log: seq<Occurrence>, commands: seq<Str>, usages: seq<EntryUsage>,
                    details: map<nat, DirectoryDetail>, paths: seq<Path>, text: Str, usage: EntryUsage)
    requires EntriesOk(log, commands, usages, details, paths) && EntryOk(log, text, usage, None, paths)
    ensures EntriesOk(log, commands + [text], usages + [usage], details, paths)
  {
    assert |usages| !in details;
  }

  lemma {:induction false} EntriesKeepInterning(log: seq<Occurrence>, commands: seq<Str>, usages: seq<EntryUsage>,
                             details: map<nat, DirectoryDetail>, paths: seq<Path>, path: Path)
    requires EntriesOk(log, commands, usages, details, paths) && path !in paths && |paths| < DIRECTORY_DETAILED
    ensures EntriesOk(log, commands, usages, details, paths + [path])
  {
    forall i | 0 <= i < |commands|
      ensures EntryOk(log, commands[i], usages[i], DetailOf(details, i), paths + [path])
    {
      assert EntryOk(log, commands[i], usages[i], DetailOf(details, i), paths);
      InternRepresents(UsesOf(log, commands[i]), StoredAt(usages[i], DetailOf(details, i)), paths, path);
    }
  }

  /** One entry takes an occurrence; the others do not notice. */
  lemma {:induction false} EntriesTakeOccurrence(log: seq<Occurrence>, commands: seq<Str>, usages: seq<EntryUsage>,
                              details: map<nat, DirectoryDetail>, paths: seq<Path>, idx: nat, o: Occurrence,
                              usage: EntryUsage, after: map<nat, DirectoryDetail>)
    requires EntriesOk(log, commands, usages, details, paths) && DistinctTexts(commands)
    requires idx < |commands| && commands[idx] == o.command
    requires forall k :: k != idx ==> DetailOf(after, k) == DetailOf(details, k)
    requires usage.letters == usages[idx].letters && usage.latestId == o.id
    requires Represents(UsesOf(log, o.command) + [UseOf(o)], StoredAt(usage, DetailOf(after, idx)), paths)
    ensures EntriesOk(log + [o], commands, usages[idx := usage], after, paths)
  {
    var more, usages' := log + [o], usages[idx := usage];
    forall i | 0 <= i < |commands|
      ensures EntryOk(more, commands[i], usages'[i], DetailOf(after, i), paths)
    {
      assert EntryOk(log, commands[i], usages[i], DetailOf(details, i), paths);
      if i == idx {
        AppendLog(log, o, o.command);
      } else {
        OtherEntryOk(log, o, commands[i], usages[i], DetailOf(details, i), paths);
      }
    }
    forall k | k in after
      ensures k < |usages|
    {
      assert k != idx ==> DetailOf(details, k).Some?;
    }
  }

  lemma {:induction false} OtherEntryOk(log: seq<Occurrence>, o: Occurrence, command: Str, usage: EntryUsage,
                     detail: Option<DirectoryDetail>, paths: seq<Path>)
    requires EntryOk(log, command, usage, detail, paths) && command != o.command
    ensures EntryOk(log + [o], command, usage, detail, paths)
  {
    AppendLog(log, o, command);
    assert UsesOf(log + [o], command) == UsesOf(log, command);
  }

  /** `after` is `before`, or `before` and a zero for a new entry. */
  ghost predicate MayGrow(before: seq<nat>, after: seq<nat>) {
    after == before || after == before + [0]
  }

  lemma {:induction false} PlacedMayGrow(session: seq<nat>, before: seq<nat>, after: seq<nat>)
    requires Placed(session, before) && MayGrow(before, after) && |after| <= REMOVED
    ensures Placed(session, after)
  {
    forall k | 0 <= k < |session|
      ensures SlotOk(session, after, k)
    {
      assert SlotOk(session, before, k);
    }
    forall i | 0 <= i < |after|
      ensures EntryPlaced(session, after, i)
    {
      assert i < |before| ==> EntryPlaced(session, before, i);
    }
  }

  ghost predicate FreshId(ids: seq<nat>, id: nat) {
    id > 0 && forall i :: 0 <= i < |ids| ==> ids[i] != id
  }

  /** No two entries share a latest id. */
  lemma {:induction false} SameIdSameEntry(rows: seq<Row>, ids: seq<nat>, i: nat, j: nat)
    requires OneRowEach(rows, ids) && i < |ids| && j < |ids| && 0 < ids[i] == ids[j]
    ensures i == j
  {
    assert RowOk(rows, ids, (ids[i] as int, i)) && RowOk(rows, ids, (ids[j] as int, j));
    SortedSearch(rows, ids[i], (ids[i] as int, i));
    SortedSearch(rows, ids[i], (ids[j] as int, j));
  }

  /** The row of the entry that takes occurrence `id` moves; no other row does. */
  lemma {:induction false} RowsMove(rows: seq<Row>, before: seq<nat>, ids: seq<nat>, idx: nat, id: nat)
    requires OneRowEach(rows, before) && MayGrow(before, ids) && idx < |ids| && FreshId(before, id)
    ensures OneRowEach(RecordLatest(Forget(rows, ids[idx]), id, idx), ids[idx := id])
  {
    forall r: Row
      ensures RowOk(rows, ids, r)
    {
      assert RowOk(rows, before, r);
    }
    forall i | 0 <= i < |ids| && ids[i] == ids[idx] && ids[i] > 0
      ensures i == idx
    {
      SameIdSameEntry(rows, ids, i, idx);
    }
    MoveRow(rows, ids, idx, id);
  }

  /** Either kind of use keeps the stored form equal to the tally. */
  lemma {:induction false} UseIsRepresented(uses: seq<Use>, before: Stored, after: Stored, paths: seq<Path>, code: nat, o: Occurrence)
    requires Represents(uses, before, paths) && Distinct(paths) && after.Coded(|paths|)
    requires o.cwd.Some? ==> code < |paths| && paths[code] == o.cwd.value
    requires o.cwd.Some? ==> Recorded(before, after, code, o.timestamp)
    requires o.cwd.None? ==> Detached(before, after, o.timestamp)
    ensures Represents(uses + [UseOf(o)], after, paths)
  {
    if o.cwd.Some? {
      RecordedRepresents(uses, before, after, paths, code, o.timestamp);
    } else {
      DetachedRepresents(uses, before, after, paths, o.timestamp);
    }
  }

  lemma {:induction false} InternedIsDistinct(paths: seq<Path>, codes: map<Path, nat>)
    requires Interned(paths, codes)
    ensures Distinct(paths)
  {
    forall i, j | 0 <= i < j < |paths|
      ensures paths[i] != paths[j]
    {
      assert CodeOk(paths, codes, i) && CodeOk(paths, codes, j);
    }
  }

  ghost predicate SameButPositions(before: seq<EntryUsage>, after: seq<EntryUsage>) {
    && |after| == |before|
    && forall i :: 0 <= i < |before| ==> after[i].(sessionPosition := 0) == before[i].(sessionPosition := 0)
  }

  lemma {:induction false} EntriesIgnorePositions(log: seq<Occurrence>, commands: seq<Str>, before: seq<EntryUsage>,
                               after: seq<EntryUsage>, details: map<nat, DirectoryDetail>, paths: seq<Path>)
    requires EntriesOk(log, commands, before, details, paths) && SameButPositions(before, after)
    ensures EntriesOk(log, commands, after, details, paths) && Ids(after) == Ids(before)
  {
    forall i | 0 <= i < |commands|
      ensures EntryOk(log, commands[i], after[i], DetailOf(details, i), paths)
    {
      assert EntryOk(log, commands[i], before[i], DetailOf(details, i), paths);
      assert after[i].(sessionPosition := 0) == before[i].(sessionPosition := 0);
    }
  }

  /** One live slot moves down to its new place. */
  lemma {:induction false} CompactStep(compact: seq<nat>, before: seq<EntryUsage>, usages: seq<EntryUsage>, idx: nat)
    requires Compacted(compact, Positions(usages), Positions(before)) && idx < |usages| && idx !in compact
    ensures Compacted(compact + [idx], Positions(usages[idx := usages[idx].(sessionPosition := |compact| + 1)]),
                      Positions(before))
  {
  }

  /** The loop of `compact_session`. */
  method CompactSlots(slots: seq<nat>, before: seq<EntryUsage>) returns (compact: seq<nat>, usages: seq<EntryUsage>)
    requires Placed(slots, Positions(before))
    ensures compact == Live(slots) && SameButPositions(before, usages)
    ensures Compacted(compact, Positions(usages), Positions(before))
  {
    compact, usages := [], before;
    PlacedHasNoRepeats(slots, Positions(before));
    for k := 0 to |slots|
      invariant compact == Live(slots[..k]) && SameButPositions(before, usages)
      invariant Compacted(compact, Positions(usages), Positions(before))
    {
      assert SlotOk(slots, Positions(before), k);
      assert slots[..k + 1] == slots[..k] + [slots[k]];
      LiveAppend(slots[..k], slots[k]);
      LiveMembers(slots[..k]);
      if slots[k] != REMOVED {
        CompactStep(compact, before, usages, slots[k]);
        compact := compact + [slots[k]];
        usages := usages[slots[k] := usages[slots[k]].(sessionPosition := |compact|)];
      }
    }
    assert slots[..|slots|] == slots;
  }

  class History {
    const hash: Str -> nat
    var arena: Str
    var offsets: seq<(nat, nat)>
    var usages: seq<EntryUsage>
    var indexByHash: map<nat, nat>
    var latestOccurrences: seq<Row>
    var directoryPaths: seq<Path>
    var directoryCodes: map<Path, nat>
    var directoryDetails: map<nat, DirectoryDetail>
    var session: seq<nat>
    var sessionLive: nat
    var lastId: nat
    /** The occurrences applied since the index was last cleared, their distinct
        commands in entry order, and the plain list the session stands for. */
    ghost var log: seq<Occurrence>
    ghost var commands: seq<Str>
    ghost var recall: seq<nat>

    /** The tables hold `commands`, and every entry tells the log's story. */
    ghost predicate Sound()
      reads `arena, `offsets, `usages, `indexByHash, `directoryPaths, `directoryCodes, `directoryDetails, `log, `commands
    {
      && TableOk(arena, offsets, indexByHash, hash, commands)
      && EntriesOk(log, commands, usages, directoryDetails, directoryPaths)
      && Interned(directoryPaths, directoryCodes) && |directoryPaths| <= DIRECTORY_DETAILED
    }

    ghost predicate RowsOk()
      reads `latestOccurrences, `usages
    {
      OneRowEach(latestOccurrences, Ids(usages))
    }

    ghost predicate SessionOk()
      reads `session, `sessionLive, `usages, `recall
    {
      Placed(session, Positions(usages)) && recall == Live(session) && sessionLive == |recall|
    }

    ghost predicate LogOk()
      reads `log, `commands
    {
      commands == Commands(log)
    }

    ghost predicate IdsOk()
      reads `log, `lastId
    {
      IdsWithin(log, lastId)
    }

    ghost predicate Valid()
      reads this
    {
      Sound() && RowsOk() && SessionOk() && LogOk() && IdsOk()
    }

    constructor (hash: Str -> nat)
      ensures Valid() && log == [] && recall == [] && this.hash == hash
    {
      this.hash := hash;
      arena, offsets, usages, indexByHash, latestOccurrences := [], [], [], map[], [];
      directoryPaths, directoryCodes, directoryDetails := [], map[], map[];
      session, sessionLive, lastId := [], 0, 0;
      log, commands, recall := [], [], [];
    }

    /** `find_entry_index`: one hash probe, then the slow path on a collision. */
    method FindEntryIndex(text: Str) returns (r: Option<nat>)
      requires TableOk(arena, offsets, indexByHash, hash, commands)
      ensures r.Some? ==> r.value < |commands| && commands[r.value] == text
      ensures r.None? ==> text !in commands
    {
      var h := hash(text);
      forall i | 0 <= i < |commands| && commands[i] == text
        ensures h in indexByHash
      {
        assert TextOk(arena, offsets[i], indexByHash, hash, commands[i]);
      }
      if h !in indexByHash {
        return None;
      }
      var idx := indexByHash[h];
      assert TextOk(arena, offsets[idx], indexByHash, hash, commands[idx]);
      if Slice(arena, offsets[idx]) == text {
        return Some(idx);
      }
      for i := 0 to |offsets|
        invariant forall j :: 0 <= j < i ==> commands[j] != text
      {
        assert TextOk(arena, offsets[i], indexByHash, hash, commands[i]);
        if Slice(arena, offsets[i]) == text {
          return Some(i);
        }
      }
      return None;
    }

    /** Adds an entry with no use yet. */
    method InternEntry(text: Str) returns (idx: nat)
      requires Sound() && text !in commands && text !in Commands(log)
      modifies `arena, `offsets, `usages, `indexByHash, `commands
      ensures Sound() && commands == old(commands) + [text] && idx == |old(commands)|
      ensures Ids(usages) == Ids(old(usages)) + [0]
      ensures Positions(usages) == Positions(old(usages)) + [0]
    {
      idx := |offsets|;
      var usage := EntryUsage(0, Tiers.LetterMask(text), NO_USAGE, DIRECTORY_NONE, 0);
      TableGrows(arena, offsets, indexByHash, hash, commands, text);
      NewEntryOk(log, text, directoryPaths);
      EntriesGrow(log, commands, usages, directoryDetails, directoryPaths, text, usage);
      offsets := offsets + [(|arena|, |text|)];
      arena := arena + text;
      usages := usages + [usage];
      indexByHash := indexByHash[hash(text) := idx];
      commands := commands + [text];
    }

    method InternDirectory(cwd: Path) returns (code: nat)
      requires Sound() && |directoryPaths| < DIRECTORY_DETAILED
      modifies `directoryPaths, `directoryCodes
      ensures Sound() && code < |directoryPaths| && directoryPaths[code] == cwd
    {
      if cwd in directoryCodes {
        assert PathOk(directoryPaths, directoryCodes, cwd);
        return directoryCodes[cwd];
      }
      code := |directoryPaths|;
      InternGrows(directoryPaths, directoryCodes, cwd);
      EntriesKeepInterning(log, commands, usages, directoryDetails, directoryPaths, cwd);
      directoryPaths := directoryPaths + [cwd];
      directoryCodes := directoryCodes[cwd := code];
    }

    /** `record_directory`, called before the entry's totals take the occurrence. */
    method RecordDirectory(idx: nat, code: nat, timestamp: nat, ghost n: nat)
      requires idx < |usages| && code < n && StoredAt(usages[idx], DetailOf(directoryDetails, idx)).Coded(n)
      modifies `usages, `directoryDetails
      ensures |usages| == |old(usages)|
      ensures usages == old(usages)[idx := old(usages)[idx].(directories := usages[idx].directories)]
      ensures forall k :: k != idx ==> DetailOf(directoryDetails, k) == DetailOf(old(directoryDetails), k)
      ensures StoredAt(usages[idx], DetailOf(directoryDetails, idx)).Coded(n)
      ensures Recorded(StoredAt(old(usages)[idx], DetailOf(old(directoryDetails), idx)),
                       StoredAt(usages[idx], DetailOf(directoryDetails, idx)).(total := Record(usages[idx].total, timestamp)),
                       code, timestamp)
    {
      var current := usages[idx].directories;
      if current == code {
        return;
      }
      if current == DIRECTORY_NONE {
        usages := usages[idx := usages[idx].(directories := code)];
        return;
      }
      if current != DIRECTORY_DETAILED {
        directoryDetails := directoryDetails[idx := Many(map[current := usages[idx].total])];
        usages := usages[idx := usages[idx].(directories := DIRECTORY_DETAILED)];
      }
      match directoryDetails[idx]
      case Tracked(tracked, usage) =>
        if tracked == code {
          directoryDetails := directoryDetails[idx := Tracked(tracked, Record(usage, timestamp))];
        } else {
          assert directoryDetails[idx].Get(tracked).Some?;
          directoryDetails := directoryDetails[idx := Many(map[tracked := usage, code := Record(NO_USAGE, timestamp)])];
        }
      case Many(usages) =>
        assert forall c: nat :: c in usages ==> directoryDetails[idx].Get(c).Some?;
        var before := if code in usages then usages[code] else NO_USAGE;
        directoryDetails := directoryDetails[idx := Many(usages[code := Record(before, timestamp)])];
    }

    /** `detach_shared_directory`. */
    method DetachSharedDirectory(idx: nat, ghost timestamp: nat, ghost n: nat)
      requires idx < |usages| && StoredAt(usages[idx], DetailOf(directoryDetails, idx)).Coded(n)
      modifies `usages, `directoryDetails
      ensures |usages| == |old(usages)|
      ensures usages == old(usages)[idx := old(usages)[idx].(directories := usages[idx].directories)]
      ensures forall k :: k != idx ==> DetailOf(directoryDetails, k) == DetailOf(old(directoryDetails), k)
      ensures StoredAt(usages[idx], DetailOf(directoryDetails, idx)).Coded(n)
      ensures Detached(StoredAt(old(usages)[idx], DetailOf(old(directoryDetails), idx)),
                       StoredAt(usages[idx], DetailOf(directoryDetails, idx)).(total := Record(usages[idx].total, timestamp)),
                       timestamp)
    {
      var current := usages[idx].directories;
      if current == DIRECTORY_NONE || current == DIRECTORY_DETAILED {
        return;
      }
      directoryDetails := directoryDetails[idx := Tracked(current, usages[idx].total)];
      usages := usages[idx := usages[idx].(directories := DIRECTORY_DETAILED)];
    }

    /** The entry of `text`, added with no use when it is new. */
    method FindOrIntern(text: Str) returns (idx: nat)
      requires Sound() && commands == Commands(log) && |offsets| < U32_MAX
      modifies `arena, `offsets, `usages, `indexByHash, `commands
      ensures Sound() && commands == Seen(old(commands), text)
      ensures idx < |commands| && commands[idx] == text
      ensures MayGrow(Ids(old(usages)), Ids(usages)) && MayGrow(Positions(old(usages)), Positions(usages))
      ensures |usages| <= U32_MAX
    {
      var found := FindEntryIndex(text);
      if found.Some? {
        idx := found.value;
      } else {
        idx := InternEntry(text);
      }
    }

    /** The directory part of an occurrence, before the totals take it. */
    method NoteDirectory(idx: nat, o: Occurrence, code: nat, ghost n: nat)
      requires idx < |usages| && StoredAt(usages[idx], DetailOf(directoryDetails, idx)).Coded(n)
      requires o.cwd.Some? ==> code < n
      modifies `usages, `directoryDetails
      ensures |usages| == |old(usages)|
      ensures usages == old(usages)[idx := old(usages)[idx].(directories := usages[idx].directories)]
      ensures forall k :: k != idx ==> DetailOf(directoryDetails, k) == DetailOf(old(directoryDetails), k)
      ensures StoredAt(usages[idx], DetailOf(directoryDetails, idx)).Coded(n)
      ensures var before := StoredAt(old(usages)[idx], DetailOf(old(directoryDetails), idx));
              var after := StoredAt(usages[idx], DetailOf(directoryDetails, idx)).(total := Record(usages[idx].total, o.timestamp));
              if o.cwd.None? then Detached(before, after, o.timestamp) else Recorded(before, after, code, o.timestamp)
    {
      if o.cwd.None? {
        DetachSharedDirectory(idx, o.timestamp, n);
      } else {
        RecordDirectory(idx, code, o.timestamp, n);
      }
    }

    /** The entry's part of an occurrence: its directory, latest id and totals. */
    method NoteUse(idx: nat, o: Occurrence, code: nat)
      requires Sound() && idx < |commands| && commands[idx] == o.command
      requires o.cwd.Some? ==> code < |directoryPaths| && directoryPaths[code] == o.cwd.value
      modifies `usages, `directoryDetails, `log
      ensures log == old(log) + [o] && Sound()
      ensures Ids(usages) == Ids(old(usages))[idx := o.id] && Positions(usages) == Positions(old(usages))
    {
      ghost var before, details, paths := usages, directoryDetails, directoryPaths;
      assert EntryOk(log, commands[idx], usages[idx], DetailOf(directoryDetails, idx), directoryPaths);
      InternedIsDistinct(paths, directoryCodes);
      NoteDirectory(idx, o, code, |directoryPaths|);
      var usage := usages[idx].(latestId := o.id, total := Record(usages[idx].total, o.timestamp));
      UseIsRepresented(UsesOf(log, o.command), StoredAt(before[idx], DetailOf(details, idx)),
                       StoredAt(usage, DetailOf(directoryDetails, idx)), paths, code, o);
      EntriesTakeOccurrence(log, commands, before, details, paths, idx, o, usage, directoryDetails);
      usages := usages[idx := usage];
      assert usages == before[idx := usage];
      log := log + [o];
    }

    /** Everything about an occurrence but the latest table: `was` is the entry's
        latest id before it. */
    method TakeOccurrence(o: Occurrence) returns (idx: nat, was: nat, ghost ids: seq<nat>)
      requires Sound() && LogOk()
      requires |offsets| < U32_MAX && |directoryPaths| < DIRECTORY_DETAILED
      modifies `arena, `offsets, `usages, `indexByHash, `directoryPaths, `directoryCodes, `directoryDetails, `log,
               `commands
      ensures Sound() && LogOk() && log == old(log) + [o] && |usages| <= U32_MAX
      ensures idx < |commands| && commands[idx] == o.command
      ensures MayGrow(Ids(old(usages)), ids) && MayGrow(Positions(old(usages)), Positions(usages))
      ensures idx < |ids| && was == ids[idx] && Ids(usages) == ids[idx := o.id]
    {
      AppendLog(log, o, o.command);
      idx := FindOrIntern(o.command);
      was, ids := usages[idx].latestId, Ids(usages);
      var code := 0;
      if o.cwd.Some? {
        code := InternDirectory(o.cwd.value);
      }
      NoteUse(idx, o, code);
    }

    /** `forget_latest_occurrence`, then `record_latest_occurrence`. */
    method MoveLatest(idx: nat, was: nat, id: nat, ghost before: seq<nat>, ghost ids: seq<nat>)
      requires OneRowEach(latestOccurrences, before) && MayGrow(before, ids) && FreshId(before, id)
      requires idx < |ids| && was == ids[idx]
      modifies `latestOccurrences, `lastId
      ensures OneRowEach(latestOccurrences, ids[idx := id])
      ensures lastId == if old(lastId) < id then id else old(lastId)
    {
      RowsMove(latestOccurrences, before, ids, idx, id);
      latestOccurrences := RecordLatest(Forget(latestOccurrences, was), id, idx);
      lastId := if lastId < id then id else lastId;
    }

    /** `apply_occurrence`, for an id no entry has yet. */
    method ApplyOccurrence(o: Occurrence) returns (idx: nat)
      requires Valid() && o.id <= U32_MAX && FreshId(Ids(usages), o.id)
      requires |offsets| < U32_MAX && |directoryPaths| < DIRECTORY_DETAILED
      modifies `arena, `offsets, `usages, `indexByHash, `latestOccurrences, `directoryPaths, `directoryCodes,
               `directoryDetails, `lastId, `log, `commands
      ensures Valid() && log == old(log) + [o]
      ensures idx < |commands| && commands[idx] == o.command
      ensures lastId == if old(lastId) < o.id then o.id else old(lastId)
    {
      var was;
      ghost var ids;
      idx, was, ids := TakeOccurrence(o);
      PlacedMayGrow(session, Positions(old(usages)), Positions(usages));
      MoveLatest(idx, was, o.id, Ids(old(usages)), ids);
    }

    /** `compact_session`: reclaim tombstones once they outnumber live slots. */
    method CompactSession()
      requires Sound() && SessionOk()
      modifies `session, `usages
      ensures Sound() && SessionOk() && recall == old(recall) && Ids(usages) == Ids(old(usages))
      ensures |usages| == |old(usages)|
      ensures |session| <= 64 || |session| <= 2 * sessionLive
    {
      if |session| <= 2 * sessionLive || |session| <= 64 {
        return;
      }
      ghost var before := usages;
      var compact, after := CompactSlots(session, usages);
      CompactedIsPlaced(session, Positions(before), Positions(after));
      EntriesIgnorePositions(log, commands, before, after, directoryDetails, directoryPaths);
      session, usages := compact, after;
    }

    /** The part of `remember_session` before compaction. */
    method AppendSlot(idx: nat)
      requires Sound() && SessionOk() && idx < |usages|
      modifies `session, `sessionLive, `usages, `recall
      ensures Sound() && SessionOk() && recall == MoveToEnd(old(recall), idx) && Ids(usages) == Ids(old(usages))
    {
      var previous := usages[idx].sessionPosition;
      RememberKeepsPlaced(session, Positions(usages), idx);
      RememberMovesToEnd(session, Positions(usages), idx);
      if previous == 0 {
        sessionLive := sessionLive + 1;
      }
      session := Remembered(session, previous, idx);
      ghost var before := usages;
      usages := usages[idx := usages[idx].(sessionPosition := |session|)];
      assert Positions(usages) == Positions(before)[idx := |session|];
      EntriesIgnorePositions(log, commands, before, usages, directoryDetails, directoryPaths);
      recall := MoveToEnd(recall, idx);
    }

    /** `remember_session`: on the plain list, move the entry to the end. */
    method RememberSession(idx: nat)
      requires Valid() && idx < |usages| && |session| < U32_MAX
      modifies `session, `sessionLive, `usages, `recall
      ensures Valid() && recall == MoveToEnd(old(recall), idx)
      ensures |session| <= 64 || |session| <= 2 * sessionLive
    {
      AppendSlot(idx);
      CompactSession();
    }

    /** `session_get`: Up-arrow recall reads the plain list from its end. */
    method Recall(skip: nat) returns (r: Option<Str>)
      requires Valid()
      ensures forall i :: 0 <= i < |recall| ==> recall[i] < |commands|
      ensures r == if skip < |recall| then Some(commands[recall[|recall| - 1 - skip]]) else None
    {
      RecallIsPlaced();
      var slot := SessionGet(session, skip);
      if slot.None? {
        return None;
      }
      assert TextOk(arena, offsets[slot.value], indexByHash, hash, commands[slot.value]);
      return Some(Slice(arena, offsets[slot.value]));
    }

    /** The recall list holds entries, each once. */
    lemma {:induction false} RecallIsPlaced()
      requires Valid()
      ensures forall i :: 0 <= i < |recall| ==> recall[i] < |commands|
      ensures forall i, j :: 0 <= i < j < |recall| ==> recall[i] != recall[j]
    {
      LiveMembers(session);
      PlacedHasNoRepeats(session, Positions(usages));
      LiveIsDistinct(session);
      forall i | 0 <= i < |recall|
        ensures recall[i] < |commands|
      {
        assert recall[i] in recall;
        var k :| 0 <= k < |session| && session[k] == recall[i];
        assert SlotOk(session, Positions(usages), k);
      }
    }

    /** For every command and directory, what is stored is the direct tally of the log, and
        the context of a search is the nearest tallied ancestor. */
    lemma {:induction false} UsageIsTally(idx: nat, directory: Path, cwd: Path)
      requires Valid() && idx < |commands|
      ensures var uses := UsesOf(log, commands[idx]);
              var stored := StoredAt(usages[idx], DetailOf(directoryDetails, idx));
              && stored.total == Total(uses)
              && RecordedAt(stored, directoryCodes, directory) == Tally(uses, directory)
              && ContextUsage(stored, directoryCodes, Some(cwd)) == NearestTally(uses, cwd, |cwd|)
    {
      var uses := UsesOf(log, commands[idx]);
      var stored := StoredAt(usages[idx], DetailOf(directoryDetails, idx));
      assert EntryOk(log, commands[idx], usages[idx], DetailOf(directoryDetails, idx), directoryPaths);
      RecordedIsTally(uses, stored, directoryPaths, directoryCodes, directory);
      NearestIsFromUses(uses, stored, directoryPaths, directoryCodes, cwd, |cwd|);
    }

    /** Counted out: the stored total is the number of uses of the command, and the stored
        usage of a directory the number of uses that count for it, each with the latest time. */
    lemma {:induction false} UsageCountsUses(idx: nat, directory: Path)
      requires Valid() && idx < |commands|
      ensures var uses := UsesOf(log, commands[idx]);
              var counted := Counted(uses, directory, |uses|);
              var recorded := RecordedAt(StoredAt(usages[idx], DetailOf(directoryDetails, idx)), directoryCodes, directory);
              && usages[idx].total.count == Capped(|uses|)
              && (forall i :: 0 <= i < |uses| ==> uses[i].timestamp <= usages[idx].total.timestamp)
              && (recorded.Some? <==> counted != {})
              && (counted != {} ==> recorded.value.count == Capped(|counted|) && IsLatest(uses, counted, recorded.value.timestamp))
    {
      var uses := UsesOf(log, commands[idx]);
      UsageIsTally(idx, directory, directory);
      TotalIsCount(uses);
      TallyIsCount(uses, directory);
    }

    /** The next id is one no entry has. */
    lemma {:induction false} NextIdIsFresh()
      requires Valid()
      ensures FreshId(Ids(usages), lastId + 1)
    {
      forall i | 0 <= i < |usages|
        ensures usages[i].latestId != lastId + 1
      {
        assert EntryOk(log, commands[i], usages[i], DetailOf(directoryDetails, i), directoryPaths);
        LatestIdWithin(log, lastId, commands[i]);
      }
    }

    /** `add_in_dir` without a store: apply the use under the next id, then remember it. */
    method Add(line: Str, blank: bool, cwd: Option<Path>, now: nat)
      requires Valid() && lastId < U32_MAX && |session| < U32_MAX
      requires |offsets| < U32_MAX && |directoryPaths| < DIRECTORY_DETAILED
      modifies this
      ensures Valid()
      ensures blank ==> log == old(log) && recall == old(recall)
      ensures !blank ==> log == old(log) + [Occurrence(old(lastId) + 1, line, now, cwd)]
      ensures !blank ==> exists idx :: 0 <= idx < |commands| && commands[idx] == line &&
                                       recall == MoveToEnd(old(recall), idx)
    {
      if blank {
        return;
      }
      NextIdIsFresh();
      var idx := ApplyOccurrence(Occurrence(lastId + 1, line, now, cwd));
      RememberSession(idx);
    }
  }
}
