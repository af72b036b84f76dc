/** The Ctrl+R mode of the editor: matches refined per keystroke with a stack of
    candidate sets (`update_history_search`). */
module HistorySearch {
  import opened Text
  import Directories
  import opened Tiers
  import opened Search
  import opened LatestTable
  import opened HistoryIndex
  import Ranking

  const SHOWN: nat := 200

  // The query line. A cursor is a character index; byte lengths are explicit.

  datatype Line = Line(text: Str, cursor: nat, kill: Str) {
    predicate Ok() {
      cursor <= |text|
    }
  }

  /** `len_utf8`. */
  function Width(c: Scalar): nat {
    if c < 0x80 then 1 else if c < 0x800 then 2 else if c < 0x1_0000 then 3 else 4
  }

  function ByteLen(s: Str): nat {
    if s == [] then 0 else ByteLen(s[..|s| - 1]) + Width(s[|s| - 1])
  }

  /** A longer prefix has more bytes. */
  lemma {:induction false} ByteLenGrows(s: Str, a: nat, b: nat)
    requires a <= b <= |s|
    ensures ByteLen(s[..a]) + (b - a) <= ByteLen(s[..b])
  {
    if a < b {
      ByteLenGrows(s, a, b - 1);
      assert s[..b][..b - 1] == s[..b - 1];
    }
  }

  datatype Action =
    | SelectUp | SelectDown
    | Left | Right | WordLeft | WordRight | Home | End
    | Type(c: Scalar) | Paste(s: Str)
    | Backspace | DeleteForward | KillToStart | KillToEnd | KillWordBack | Yank

  function Insert(line: Line, s: Str): Line
    requires line.Ok()
  {
    Line(line.text[..line.cursor] + s + line.text[line.cursor..], line.cursor + |s|, line.kill)
  }

  /** The cursor after skipping characters before it while `skip` holds. */
  function SkipBack(text: Str, cursor: nat, skip: Scalar -> bool): (r: nat)
    requires cursor <= |text|
    ensures r <= cursor
  {
    if cursor > 0 && skip(text[cursor - 1]) then SkipBack(text, cursor - 1, skip) else cursor
  }

  function SkipForward(text: Str, cursor: nat, skip: Scalar -> bool): (r: nat)
    requires cursor <= |text|
    ensures cursor <= r <= |text|
    decreases |text| - cursor
  {
    if cursor < |text| && skip(text[cursor]) then SkipForward(text, cursor + 1, skip) else cursor
  }

  function WordStart(text: Str, cursor: nat, space: Scalar -> bool): (r: nat)
    requires cursor <= |text|
    ensures r <= cursor
  {
    SkipBack(text, SkipBack(text, cursor, space), c => !space(c))
  }

  /** The line after an action, and whether the action asks for a new search. */
  function Edit(line: Line, action: Action, space: Scalar -> bool): (r: (Line, bool))
    requires line.Ok()
    ensures r.0.Ok() && (!r.1 ==> r.0.text == line.text)
  {
    var Line(text, cursor, kill) := line;
    match action
    case SelectUp => (line, false)
    case SelectDown => (line, false)
    case Left => (line.(cursor := if cursor > 0 then cursor - 1 else 0), false)
    case Right => (line.(cursor := if cursor < |text| then cursor + 1 else cursor), false)
    case WordLeft => (line.(cursor := WordStart(text, cursor, space)), false)
    case WordRight =>
      (line.(cursor := SkipForward(text, SkipForward(text, cursor, c => !space(c)), space)), false)
    case Home => (line.(cursor := 0), false)
    case End => (line.(cursor := |text|), false)
    case Type(c) => (Insert(line, [c]), true)
    case Paste(s) => (Insert(line, s), true)
    case Backspace =>
      (if cursor == 0 then line else Line(text[..cursor - 1] + text[cursor..], cursor - 1, kill), true)
    case DeleteForward =>
      (if cursor == |text| then line else Line(text[..cursor] + text[cursor + 1..], cursor, kill), true)
    case KillToStart => (if cursor == 0 then line else Line(text[cursor..], 0, text[..cursor]), true)
    case KillToEnd => (if cursor == |text| then line else Line(text[..cursor], cursor, text[cursor..]), true)
    case KillWordBack =>
      var start := WordStart(text, cursor, space);
      (if start == cursor then line else Line(text[..start] + text[cursor..], start, text[start..cursor]), true)
    case Yank => (if kill == [] then line else Insert(line, kill), true)
  }

  /** The selection after a key: up and down move it by one within the list. */
  function Select(action: Action, selected: nat, count: nat): (r: nat)
    ensures selected < count ==> r < count
    ensures r < selected ==> action.SelectUp? && r == selected - 1
    ensures r > selected ==> action.SelectDown? && r == selected + 1 < count
    ensures r == selected && selected < count ==>
              (action.SelectUp? ==> r == 0) && (action.SelectDown? ==> r == count - 1)
  {
    if action.SelectUp? && selected > 0 then selected - 1
    else if action.SelectDown? && selected + 1 < count then selected + 1
    else selected
  }

  type Frame = (nat, seq<nat>)

  /** `candidates` lists distinct entries and misses no match of `query`. */
  ghost predicate CoversQuery(ix: Index, fold: Folding, candidates: seq<nat>, query: Str) {
    && InRange(ix, candidates) && Distinct(candidates)
    && forall x {:trigger x in candidates} :: 0 <= x < |ix.texts| && Matches(fold, query, ix.texts[x]) ==> x in candidates
  }

  /** Frame `(len, set)` was pushed at the first `mark` characters of the query. */
  ghost predicate FrameOk(ix: Index, fold: Folding, text: Str, frame: Frame, mark: nat) {
    mark < |text| && frame.0 == ByteLen(text[..mark]) && CoversQuery(ix, fold, frame.1, text[..mark])
  }

  ghost predicate StackOk(ix: Index, fold: Folding, text: Str, stack: seq<Frame>, marks: seq<nat>) {
    && |marks| == |stack|
    && (forall k {:trigger FrameOk(ix, fold, text, stack[k], marks[k])} ::
          0 <= k < |stack| ==> FrameOk(ix, fold, text, stack[k], marks[k]))
    && (forall j, k :: 0 <= j < k < |marks| ==> marks[j] < marks[k])
  }

  lemma {:induction false} AllCover(ix: Index, fold: Folding, all: seq<nat>, query: Str)
    requires InRange(ix, all) && Distinct(all) && forall x :: 0 <= x < |ix.texts| ==> x in all
    ensures CoversQuery(ix, fold, all, query)
  {
  }

  /** Searching any cover of the query shows what searching everything shows. */
  lemma {:induction false} CoverShowsAll(ix: Index, fold: Folding, query: Str, cwd: Option<Directories.Path>, now: nat,
                                         candidates: seq<nat>, all: seq<nat>, limit: nat)
    requires ix.Ok() && CoversQuery(ix, fold, candidates, query) && CoversQuery(ix, fold, all, query)
    ensures Shown(ix, fold, query, cwd, now, candidates, limit) == Shown(ix, fold, query, cwd, now, all, limit)
  {
    assert MatchSet(ix, fold, query, candidates) == MatchSet(ix, fold, query, all);
  }

  lemma {:induction false} MatchedIsDistinct(ix: Index, fold: Folding, query: Str, candidates: seq<nat>)
    requires InRange(ix, candidates) && Distinct(candidates)
    ensures Distinct(Matched(ix, fold, query, candidates)) && InRange(ix, Matched(ix, fold, query, candidates))
  {
    if candidates != [] {
      var front, last := candidates[..|candidates| - 1], candidates[|candidates| - 1];
      MatchedIsDistinct(ix, fold, query, front);
      MatchedMembers(ix, fold, query, front);
      var rest := Matched(ix, fold, query, front);
      assert last !in front && forall i :: 0 <= i < |rest| ==> rest[i] in rest;
    }
  }

  /** The matches of a longer query within a cover of a shorter one cover the longer. */
  lemma {:induction false} NarrowedCovers(ix: Index, fold: Folding, wider: seq<nat>, query: Str, longer: Str)
    requires CoversQuery(ix, fold, wider, query) && query <= longer
    ensures CoversQuery(ix, fold, Matched(ix, fold, longer, wider), longer)
    ensures CoversQuery(ix, fold, wider, longer)
  {
    forall x | 0 <= x < |ix.texts| && Matches(fold, longer, ix.texts[x])
      ensures x in wider
    {
      LongerQueriesMatchLess(fold, query, longer, ix.texts[x]);
    }
    MatchedIsDistinct(ix, fold, longer, wider);
    MatchedMembers(ix, fold, longer, wider);
  }

  /** What is left of the stack once frames beyond `n` characters are gone. */
  lemma {:induction false} StackKeepsPrefix(ix: Index, fold: Folding, text: Str, stack: seq<Frame>, marks: seq<nat>,
                                            shorter: Str, m: nat)
    requires StackOk(ix, fold, text, stack, marks) && shorter <= text && m <= |stack|
    requires m > 0 ==> marks[m - 1] < |shorter|
    ensures StackOk(ix, fold, shorter, stack[..m], marks[..m])
  {
    forall k | 0 <= k < m
      ensures FrameOk(ix, fold, shorter, stack[..m][k], marks[..m][k])
    {
      assert FrameOk(ix, fold, text, stack[k], marks[k]);
      assert marks[k] <= marks[m - 1];
      assert shorter[..marks[k]] == text[..marks[k]];
    }
  }

  /** A longer query keeps the frames, and a new one joins them. */
  lemma {:induction false} PushFrame(ix: Index, fold: Folding, text: Str, longer: Str, stack: seq<Frame>, marks: seq<nat>,
                                     wider: seq<nat>)
    requires StackOk(ix, fold, text, stack, marks) && text < longer && CoversQuery(ix, fold, wider, text)
    ensures StackOk(ix, fold, longer, stack + [(ByteLen(text), wider)], marks + [|text|])
  {
    var stack', marks' := stack + [(ByteLen(text), wider)], marks + [|text|];
    assert longer[..|text|] == text;
    forall k | 0 <= k < |stack'|
      ensures FrameOk(ix, fold, longer, stack'[k], marks'[k])
    {
      if k < |stack| {
        assert FrameOk(ix, fold, text, stack[k], marks[k]);
        assert longer[..marks[k]] == text[..marks[k]];
      }
    }
    forall j, k | 0 <= j < k < |marks'|
      ensures marks'[j] < marks'[k]
    {
      assert FrameOk(ix, fold, text, stack[j], marks[j]);
    }
  }

  lemma {:induction false} PopFrame(ix: Index, fold: Folding, text: Str, stack: seq<Frame>, marks: seq<nat>)
    requires StackOk(ix, fold, text, stack, marks) && stack != []
    ensures StackOk(ix, fold, text, stack[..|stack| - 1], marks[..|marks| - 1])
  {
    var n := |stack| - 1;
    if n > 0 {
      assert FrameOk(ix, fold, text, stack[n - 1], marks[n - 1]);
    }
    StackKeepsPrefix(ix, fold, text, stack, marks, text, n);
  }

  /** The top frame with the new length is the new query's own, and those below it
      belong to shorter prefixes. */
  lemma {:induction false} FrameOfLength(ix: Index, fold: Folding, text: Str, shorter: Str, stack: seq<Frame>,
                                         marks: seq<nat>)
    requires StackOk(ix, fold, text, stack, marks) && shorter < text
    requires stack != [] && stack[|stack| - 1].0 == ByteLen(shorter)
    ensures CoversQuery(ix, fold, stack[|stack| - 1].1, shorter)
    ensures StackOk(ix, fold, shorter, stack[..|stack| - 1], marks[..|marks| - 1])
  {
    var n := |stack| - 1;
    assert FrameOk(ix, fold, text, stack[n], marks[n]);
    assert text[..|shorter|] == shorter;
    if marks[n] < |shorter| {
      ByteLenGrows(text, marks[n], |shorter|);
    } else {
      ByteLenGrows(text, |shorter|, marks[n]);
    }
    assert marks[n] == |shorter|;
    StackKeepsPrefix(ix, fold, text, stack, marks, shorter, n);
  }

  function Buffers(stack: seq<Frame>): seq<seq<nat>> {
    seq(|stack|, i requires 0 <= i < |stack| => stack[i].1)
  }

  /** `all` lists every entry once. */
  ghost predicate ListsAll(ix: Index, fold: Folding, all: seq<nat>) {
    && ix.Ok() && FoldsAscii(fold) && InRange(ix, all) && Distinct(all)
    && forall x :: 0 <= x < |ix.texts| ==> x in all
  }

  /** A search within any cover of the query shows what a search of everything would,
      and its matches cover the query again. */
  method SearchCover(ix: Index, fold: Folding, query: Str, cwd: Option<Directories.Path>, now: nat,
                     candidates: seq<nat>, ghost all: seq<nat>) returns (matched: seq<nat>, shown: seq<FuzzyMatch>)
    requires ListsAll(ix, fold, all) && CoversQuery(ix, fold, candidates, query)
    ensures CoversQuery(ix, fold, matched, query) && CoversQuery(ix, fold, all, query)
    ensures shown == Shown(ix, fold, query, cwd, now, all, SHOWN)
  {
    AllCover(ix, fold, all, query);
    CoverShowsAll(ix, fold, query, cwd, now, candidates, all, SHOWN);
    NarrowedCovers(ix, fold, candidates, query, query);
    matched, shown := SearchLimited(ix, fold, query, candidates, SHOWN, cwd, now);
  }

  class HistorySearch {
    const ix: Index
    const fold: Folding
    const cwd: Option<Directories.Path>
    /** Every entry, as the latest-occurrence table lists them. */
    const all: seq<nat>
    var query: Line
    var matches: seq<FuzzyMatch>
    var candidates: seq<nat>
    var scratch: seq<nat>
    var stack: seq<Frame>
    var spare: seq<seq<nat>>
    var selected: nat
    /** How many characters of the query each frame was pushed at, and the clock of the
        last search. */
    ghost var marks: seq<nat>
    ghost var asOf: nat

    /** The candidates and every frame cover their query, and the matches are those of
        a fresh search of the whole history for the current query. */
    ghost predicate Current(now: nat)
      reads `query, `matches, `candidates, `stack, `marks
    {
      && CoversQuery(ix, fold, candidates, query.text)
      && StackOk(ix, fold, query.text, stack, marks)
      && ListsAll(ix, fold, all)
      && matches == Shown(ix, fold, query.text, cwd, now, all, SHOWN)
    }

    ghost predicate Valid()
      reads this
    {
      query.Ok() && Current(asOf) && (selected == 0 || selected < |matches|)
    }

    /** `start_history_search`. */
    constructor (ix: Index, fold: Folding, cwd: Option<Directories.Path>, all: seq<nat>, now: nat)
      requires ListsAll(ix, fold, all)
      ensures Valid() && query == Line([], 0, []) && asOf == now
      ensures this.ix == ix && this.fold == fold && this.cwd == cwd && this.all == all
    {
      AllCover(ix, fold, all, []);
      var matched, shown := SearchCover(ix, fold, [], cwd, now, all, all);
      this.ix, this.fold, this.cwd, this.all := ix, fold, cwd, all;
      query, matches := Line([], 0, []), shown;
      candidates, scratch, stack, spare, selected := matched, all, [], [], 0;
      marks, asOf := [], now;
    }

    /** Search everything for the new text, dropping the stack. */
    method SearchAll(now: nat)
      requires ListsAll(ix, fold, all)
      modifies `matches, `candidates, `scratch, `stack, `spare, `marks
      ensures Current(now)
    {
      spare := spare + Buffers(stack);
      stack, marks := [], [];
      AllCover(ix, fold, all, query.text);
      scratch := all;
      candidates, matches := SearchCover(ix, fold, query.text, cwd, now, scratch, all);
      candidates, scratch := scratch, candidates;
    }

    /** The query grew at its end: search within the candidates and push them. */
    method Narrow(previous: Str, now: nat)
      requires ListsAll(ix, fold, all) && previous < query.text
      requires CoversQuery(ix, fold, candidates, previous) && StackOk(ix, fold, previous, stack, marks)
      modifies `matches, `candidates, `stack, `spare, `marks
      ensures Current(now)
    {
      var wider := candidates;
      candidates := if spare == [] then [] else spare[|spare| - 1];
      spare := if spare == [] then [] else spare[..|spare| - 1];
      PushFrame(ix, fold, previous, query.text, stack, marks, wider);
      stack, marks := stack + [(ByteLen(previous), wider)], marks + [|previous|];
      NarrowedCovers(ix, fold, wider, previous, query.text);
      candidates, matches := SearchCover(ix, fold, query.text, cwd, now, wider, all);
    }

    /** Drop the frames of longer queries. */
    method PopFrames(ghost previous: Str, len: nat)
      requires StackOk(ix, fold, previous, stack, marks)
      modifies `stack, `spare, `marks
      ensures StackOk(ix, fold, previous, stack, marks)
    {
      while stack != [] && stack[|stack| - 1].0 > len
        invariant StackOk(ix, fold, previous, stack, marks)
        decreases |stack|
      {
        spare := spare + [stack[|stack| - 1].1];
        PopFrame(ix, fold, previous, stack, marks);
        stack, marks := stack[..|stack| - 1], marks[..|marks| - 1];
      }
    }

    /** Search the candidates of the top frame, pushed at the new text. */
    method UseFrame(ghost previous: Str, now: nat)
      requires ListsAll(ix, fold, all) && query.text < previous && StackOk(ix, fold, previous, stack, marks)
      requires stack != [] && stack[|stack| - 1].0 == ByteLen(query.text)
      modifies `matches, `candidates, `scratch, `stack, `spare, `marks
      ensures Current(now)
    {
      FrameOfLength(ix, fold, previous, query.text, stack, marks);
      spare := spare + [candidates];
      candidates := stack[|stack| - 1].1;
      stack, marks := stack[..|stack| - 1], marks[..|marks| - 1];
      scratch, matches := SearchCover(ix, fold, query.text, cwd, now, candidates, all);
    }

    /** The query shrank at its end: pop to the frame of the new length, if there is one. */
    method Widen(ghost previous: Str, now: nat)
      requires ListsAll(ix, fold, all) && query.text < previous && StackOk(ix, fold, previous, stack, marks)
      modifies `matches, `candidates, `scratch, `stack, `spare, `marks
      ensures Current(now)
    {
      PopFrames(previous, ByteLen(query.text));
      if stack != [] && stack[|stack| - 1].0 == ByteLen(query.text) {
        UseFrame(previous, now);
      } else {
        SearchAll(now);
      }
    }

    /** `update_history_search`: `previous` is the line before the edit. */
    method Update(previous: Line, now: nat)
      requires ListsAll(ix, fold, all) && previous.Ok() && query.Ok()
      requires CoversQuery(ix, fold, candidates, previous.text) && StackOk(ix, fold, previous.text, stack, marks)
      modifies `matches, `candidates, `scratch, `stack, `spare, `marks, `asOf, `selected
      ensures Valid() && asOf == now && selected == 0
    {
      var atEnds := previous.cursor == |previous.text| && query.cursor == |query.text|;
      if atEnds && previous.text < query.text {
        Narrow(previous.text, now);
      } else if atEnds && query.text < previous.text {
        Widen(previous.text, now);
      } else {
        SearchAll(now);
      }
      selected, asOf := 0, now;
    }

    /** Enter: the selected command, if any. */
    method Accept() returns (r: Option<Str>)
      ensures r == if selected < |matches| && matches[selected].entry < |ix.texts|
                   then Some(ix.texts[matches[selected].entry]) else None
    {
      if selected < |matches| && matches[selected].entry < |ix.texts| {
        return Some(ix.texts[matches[selected].entry]);
      }
      return None;
    }

    /** A key that leaves the text alone: the cursor or the selection moves. */
    method Stay(line: Line, action: Action)
      modifies `query, `selected
      ensures query == line && selected == Select(action, old(selected), |matches|)
    {
      query := line;
      selected := Select(action, selected, |matches|);
    }

    /** `handle_history_search_key` and `handle_paste`, for a key that stays in the mode. */
    method Handle(action: Action, space: Scalar -> bool, now: nat)
      requires Valid()
      modifies `query, `matches, `candidates, `scratch, `stack, `spare, `marks, `asOf, `selected
      ensures Valid() && query == Edit(old(query), action, space).0
      ensures asOf == if Edit(old(query), action, space).1 then now else old(asOf)
      ensures Edit(old(query), action, space).1 ==> selected == 0
      ensures !Edit(old(query), action, space).1 ==>
                matches == old(matches) && selected == Select(action, old(selected), |matches|)
    {
      var previous := query;
      var (line, search) := Edit(query, action, space);
      if search {
        query := line;
        Update(previous, now);
      } else {
        Stay(line, action);
      }
    }
  }

  /** The query after a run of actions. */
  function Edits(line: Line, actions: seq<Action>, space: Scalar -> bool): (r: Line)
    requires line.Ok()
    ensures r.Ok()
  {
    if actions == [] then line
    else Edit(Edits(line, actions[..|actions| - 1], space), actions[|actions| - 1], space).0
  }

  lemma {:induction false} EditsStep(line: Line, actions: seq<Action>, k: nat, space: Scalar -> bool)
    requires line.Ok() && k < |actions|
    ensures Edits(line, actions[..k + 1], space) == Edit(Edits(line, actions[..k], space), actions[k], space).0
  {
    assert actions[..k + 1][..k] == actions[..k];
  }

  /** After every run of actions from the start of the search, each at its own time,
      the matches shown are those of a fresh search of the whole history. */
  method Run(ix: Index, fold: Folding, cwd: Option<Directories.Path>, all: seq<nat>, actions: seq<Action>,
             space: Scalar -> bool, clock: nat -> nat) returns (shown: seq<FuzzyMatch>, at: nat)
    requires ListsAll(ix, fold, all)
    ensures shown == Shown(ix, fold, Edits(Line([], 0, []), actions, space).text, cwd, at, all, SHOWN)
    ensures exists k :: 0 <= k <= |actions| && at == clock(k)
  {
    var search := new HistorySearch(ix, fold, cwd, all, clock(0));
    at := clock(0);
    ghost var start, searched := Line([], 0, []), 0;
    for k := 0 to |actions|
      invariant search.Valid() && search.query == Edits(start, actions[..k], space) && search.asOf == at
      invariant search.ix == ix && search.fold == fold && search.cwd == cwd && search.all == all
      invariant 0 <= searched <= k && at == clock(searched)
    {
      EditsStep(start, actions, k, space);
      var edit := Edit(search.query, actions[k], space);
      search.Handle(actions[k], space, clock(k + 1));
      if edit.1 {
        at, searched := clock(k + 1), k + 1;
      }
    }
    assert actions[..|actions|] == actions;
    shown := search.matches;
  }

  /** What is shown, and so what Enter accepts: 200 matches or all when there are fewer, and
      whatever is selected is a command that matches the query. */
  lemma {:induction false} AcceptedMatches(ix: Index, fold: Folding, query: Str, cwd: Option<Directories.Path>, now: nat,
                                           all: seq<nat>, selected: nat)
    requires ListsAll(ix, fold, all)
    ensures var shown := Shown(ix, fold, query, cwd, now, all, SHOWN);
            var n := |MatchSet(ix, fold, query, all)|;
            && |shown| == (if n < 200 then n else 200)
            && (selected < |shown| ==>
                  shown[selected].entry < |ix.texts| && Matches(fold, query, ix.texts[shown[selected].entry]))
  {
    Ranking.ShownIsFull(ix, fold, query, cwd, now, all, SHOWN);
    var shown, found := Shown(ix, fold, query, cwd, now, all, SHOWN), MatchSet(ix, fold, query, all);
    if selected < |shown| {
      assert shown[selected].entry in found;
    }
  }

  /** Any valid history can be searched this way. */
  lemma {:induction false} HistoryListsAll(h: History, fold: Folding)
    requires h.Valid() && FoldsAscii(fold)
    ensures ListsAll(ViewOf(h), fold, EntryIndices(h.latestOccurrences))
  {
    HistoryIsSearchable(h);
    var rows := EntryIndices(h.latestOccurrences);
    assert forall i :: 0 <= i < |rows| ==> rows[i] in rows;
  }
}
