/** `refresh`: the transaction that moves the shell from one environment layer to the next,
    and what every run of refreshes and user edits keeps. */
module Denv {
  import opened Text
  import opened Bytes
  import opened Variables
  import opened ActiveRecord
  import opened EnvDiff
  import opened EnvLayer

  // What a refresh finds outside the shell.

  datatype Files = Files(dir: Bytes, envrc: Option<nat>, dotenv: Option<nat>)

  /** Outcomes of one refresh's calls into the file system and the evaluator. */
  datatype World = World(
    cwdIsAbsolute: bool,
    found: Option<Files>,
    readable: bool,
    allowed: bool,
    entries: Option<seq<Pair>>,
    eval: Option<Diff>,
    canonical: Bytes -> Option<Bytes>,
    recordReadable: bool,
    saved: bool,
    cleared: bool)

  predicate NamesTyped(names: seq<Variables.Name>) {
    forall n :: n in names ==> Utf8(n)
  }

  predicate EntriesTyped(entries: seq<Pair>) {
    forall p :: p in entries ==> Utf8(p.name)
  }

  /** What the types guarantee: `u64` timestamps and names that are UTF-8. */
  predicate Typed(w: World) {
    && (w.found.Some? ==> Mtime(w.found.value.envrc) < U64 && Mtime(w.found.value.dotenv) < U64)
    && (w.entries.Some? ==> EntriesTyped(w.entries.value))
    && (w.eval.Some? ==> EntriesTyped(w.eval.value.set_) && NamesTyped(w.eval.value.unset))
  }

  function Mtime(m: Option<nat>): nat {
    match m case Some(t) => t case None => 0
  }

  function Canonical(w: World, dir: Bytes): Bytes {
    match w.canonical(dir) case Some(c) => c case None => dir
  }

  predicate PathsMatch(w: World, a: Bytes, b: Bytes) {
    a == b || (w.canonical(a).Some? && w.canonical(a) == w.canonical(b))
  }

  function StateValue(f: Files): Bytes {
    Decimal(Mtime(f.envrc)) + [SPACE] + (Decimal(Mtime(f.dotenv)) + [SPACE] + f.dir)
  }

  /** `parse_denv_state`. */
  function ParseState(s: Bytes): Option<(nat, nat, Bytes)> {
    match SplitOnce(s, SPACE)
    case None => None
    case Some((envrc, rest)) =>
      match SplitOnce(rest, SPACE) {
        case None => None
        case Some((dotenv, dir)) =>
          match (ParseU64(envrc), ParseU64(dotenv)) {
            case (Some(e), Some(d)) => Some((e, d, dir))
            case _ => None
          }
      }
  }

  /** `__DENV_STATE` names the files just found. */
  predicate StateMatches(w: World, f: Files, vars: Vars) {
    DENV_STATE in vars && vars[DENV_STATE].value.Some? && Utf8(vars[DENV_STATE].value.value)
    && match ParseState(vars[DENV_STATE].value.value) {
         case None => false
         case Some((envrc, dotenv, dir)) =>
           envrc == Mtime(f.envrc) && dotenv == Mtime(f.dotenv)
           && ((Utf8(f.dir) && dir == f.dir) || (w.canonical(f.dir) == Some(dir) && Utf8(dir)))
       }
  }

  predicate RecordMatches(w: World, f: Files, active: Option<ActiveState>) {
    active.Some? && active.value.envrcMtime == Mtime(f.envrc) && active.value.dotenvMtime == Mtime(f.dotenv)
    && PathsMatch(w, active.value.dir, f.dir)
  }

  // The transition.

  datatype RecordUpdate = Keep | Clear | Save(state: ActiveState)
  datatype Transition = Transition(changes: seq<EnvChange>, record: RecordUpdate)

  function PrevList(active: Option<ActiveState>): seq<PrevVar> {
    match active case Some(a) => a.prev case None => []
  }

  /** The store with the active layer taken off; none when a listed name is readonly. */
  function Restored(vars: Vars, active: Option<ActiveState>): Option<Vars> {
    Apply(vars, RestoreChanges(PrevList(active)))
  }

  const CLEAR_RUNTIME: seq<EnvChange> := [UnsetIt(DENV_DIR), UnsetIt(DENV_DIRTY), UnsetIt(DENV_STATE)]

  function MarkDirty(dir: Bytes): seq<EnvChange> {
    [SetTo(DENV_DIR, dir), SetTo(DENV_DIRTY, [49]), UnsetIt(DENV_STATE)]
  }

  function MarkLoaded(dir: Bytes, f: Files): seq<EnvChange> {
    [SetTo(DENV_DIR, dir), UnsetIt(DENV_DIRTY), SetTo(DENV_STATE, StateValue(f))]
  }

  /** The changes `apply_diff` pushes. */
  function DiffChanges(d: Diff): seq<EnvChange> {
    SetChanges(d.set_) + UnsetChanges(d.unset)
  }

  function LayerDiff(w: World, f: Files, working: Vars): Option<Diff> {
    if f.envrc.Some? then w.eval
    else Some(Diff(DotenvOnly(if f.dotenv.Some? && w.entries.Some? then w.entries.value else [], Environment(working)), []))
  }

  predicate FilesFail(w: World, f: Files) {
    !w.readable || (w.allowed && f.dotenv.Some? && w.entries.None?)
  }

  predicate Unchanged(force: bool, vars: Vars, active: Option<ActiveState>, w: World, f: Files) {
    !force && w.allowed && (StateMatches(w, f, vars) || RecordMatches(w, f, active))
  }

  /** `refresh_inner`; every error is `None`. */
  function RefreshInner(force: bool, vars: Vars, active: Option<ActiveState>, w: World): Option<Transition> {
    var restore := RestoreChanges(PrevList(active));
    if !w.cwdIsAbsolute then None
    else if w.found.Some? && FilesFail(w, w.found.value) then None
    else if w.found.Some? && Unchanged(force, vars, active, w, w.found.value) then Some(Transition([], Keep))
    else
      match Restored(vars, active)
      case None => None
      case Some(working) =>
        if w.found.None? then Some(Transition(restore + CLEAR_RUNTIME, Clear))
        else
          var f := w.found.value;
          var dir := Canonical(w, f.dir);
          if !w.allowed then Some(Transition(restore + MarkDirty(dir), Clear))
          else
            match LayerDiff(w, f, working) {
              case None => Some(Transition(restore + MarkDirty(dir), Clear))
              case Some(d) =>
                Some(Transition(restore + (DiffChanges(d) + MarkLoaded(dir, f)),
                                Save(ActiveState(dir, Mtime(f.envrc), Mtime(f.dotenv), CapturePrev(d, working)))))
            }
  }

  // The session.

  datatype Shell = Shell(vars: Vars, active: Option<ActiveState>, loaded: bool, disk: Option<Bytes>)

  /** `load_active` on a readable file: none when malformed. */
  function LoadRecord(disk: Option<Bytes>): Option<Option<ActiveState>> {
    match disk
    case None => Some(None)
    case Some(content) =>
      if Utf8(content) && ParseActive(content).Some? then Some(Some(ParseActive(content).value)) else None
  }

  function Loaded(s: Shell, force: bool, w: World): Option<Shell> {
    if s.loaded then Some(s)
    else if !w.recordReadable then None
    else
      match LoadRecord(s.disk)
      case Some(active) => Some(s.(active := active, loaded := true))
      case None => if force && w.cleared then Some(s.(active := None, loaded := true, disk := None)) else None
  }

  function Committed(s: Shell, vars: Vars, record: RecordUpdate, w: World): Option<Shell> {
    match record
    case Keep => Some(s.(vars := vars))
    case Clear => if w.cleared then Some(s.(vars := vars, active := None, disk := None)) else None
    case Save(state) =>
      if Storable(state) && w.saved then Some(s.(vars := vars, active := Some(state), disk := Some(Render(state)))) else None
  }

  /** The state after a refresh, and the changes it reports or none on error. */
  function Refreshed(s: Shell, force: bool, w: World): (Shell, Option<seq<EnvChange>>) {
    match Loaded(s, force, w)
    case None => (s, None)
    case Some(t) =>
      match RefreshInner(force, t.vars, t.active, w)
      case None => (t, None)
      case Some(tr) =>
        match Apply(t.vars, tr.changes)
        case None => (t, None)
        case Some(candidate) =>
          match Committed(t, candidate, tr.record, w)
          case None => (t, None)
          case Some(u) => (u, Some(tr.changes))
  }

  /** denv's session together with the variable store and the record on disk. */
  class Session {
    var vars: Vars
    var active: Option<ActiveState>
    var loaded: bool
    var disk: Option<Bytes>

    ghost function State(): Shell
      reads this
    {
      Shell(vars, active, loaded, disk)
    }

    constructor (vars: Vars, disk: Option<Bytes>)
      ensures State() == Shell(vars, None, false, disk)
    {
      this.vars, active, loaded, this.disk := vars, None, false, disk;
    }

    /** The first refresh of a session reads the record. */
    method Load(force: bool, w: World) returns (ok: bool)
      modifies this
      ensures ok == Loaded(old(State()), force, w).Some?
      ensures State() == if ok then Loaded(old(State()), force, w).value else old(State())
    {
      if loaded {
        return true;
      }
      if !w.recordReadable {
        return false;
      }
      var record := LoadRecord(disk);
      if record.Some? {
        active := record.value;
      } else if force && w.cleared {
        active, disk := None, None;
      } else {
        return false;
      }
      loaded := true;
      return true;
    }

    /** `save_active`: validates, then replaces the file in one step. */
    method SaveActive(state: ActiveState, w: World) returns (ok: bool)
      modifies this`disk
      ensures ok == (Storable(state) && w.saved)
      ensures disk == if ok then Some(Render(state)) else old(disk)
    {
      if !Storable(state) || !w.saved {
        return false;
      }
      var buf := WriteRecord(state);
      disk := Some(buf);
      return true;
    }

    /** `refresh`: the candidate store is published last, and once the record is loaded a
        failure at any point changes nothing. */
    method Refresh(force: bool, w: World) returns (r: Option<seq<EnvChange>>)
      modifies this
      ensures (State(), r) == Refreshed(old(State()), force, w)
      ensures old(loaded) && r.None? ==> State() == old(State())
    {
      var ready := Load(force, w);
      if !ready {
        return None;
      }
      var transition := RefreshInner(force, vars, active, w);
      if transition.None? {
        return None;
      }
      var changes, record := transition.value.changes, transition.value.record;
      var candidate := ApplyChanges(vars, changes);
      if candidate.None? {
        return None;
      }
      match record {
        case Keep =>
        case Clear =>
          if !w.cleared {
            return None;
          }
          disk := None;
          active := None;
        case Save(state) =>
          var ok := SaveActive(state, w);
          if !ok {
            return None;
          }
          active := Some(state);
      }
      vars := candidate.value;
      return Some(changes);
    }
  }

  // Transactions.

  /** The record on disk reads back as the layer in memory. */
  predicate RecordIsCurrent(s: Shell) {
    s.loaded ==> LoadRecord(s.disk) == Some(s.active)
  }

  lemma {:induction false} SavedStateIsTyped(s: Shell, force: bool, w: World)
    requires Typed(w)
    requires RefreshInner(force, s.vars, s.active, w).Some? && RefreshInner(force, s.vars, s.active, w).value.record.Save?
    ensures WellTyped(RefreshInner(force, s.vars, s.active, w).value.record.state)
  {
    var f := w.found.value;
    var working := Restored(s.vars, s.active).value;
    var d := LayerDiff(w, f, working).value;
    DiffIsTyped(w, f, working);
    CaptureIsTyped(DiffNames(d), working);
  }

  lemma {:induction false} DiffIsTyped(w: World, f: Files, working: Vars)
    requires Typed(w) && LayerDiff(w, f, working).Some?
    ensures NamesTyped(DiffNames(LayerDiff(w, f, working).value))
  {
    var d := LayerDiff(w, f, working).value;
    if f.envrc.None? {
      forall p | p in d.set_
        ensures Utf8(p.name)
      {
        DotenvOnlyAre(if f.dotenv.Some? && w.entries.Some? then w.entries.value else [], Environment(working), p);
      }
    }
    forall n | n in DiffNames(d)
      ensures Utf8(n)
    {
      if n !in d.unset {
        var i :| 0 <= i < |d.set_| && d.set_[i].name == n;
        assert d.set_[i] in d.set_;
      }
    }
  }

  lemma {:induction false} CaptureIsTyped(names: seq<Variables.Name>, v: Vars)
    requires NamesTyped(names)
    ensures forall i :: 0 <= i < |CaptureNames(names, v)| ==> Utf8(CaptureNames(names, v)[i].name)
  {
    if names != [] {
      assert names[0] in names && forall n :: n in names[1..] ==> n in names;
      CaptureIsTyped(names[1..], v);
    }
  }

  lemma {:induction false} SavedIsCurrent(state: ActiveState)
    requires WellTyped(state) && Storable(state)
    ensures LoadRecord(Some(Render(state))) == Some(Some(state))
  {
    RecordRoundTrip(state);
    RenderIsUtf8(state);
  }

  lemma {:induction false} CommitKeepsRecordCurrent(t: Shell, vars: Vars, record: RecordUpdate, w: World)
    requires RecordIsCurrent(t) && t.loaded && (record.Save? ==> WellTyped(record.state))
    requires Committed(t, vars, record, w).Some?
    ensures var u := Committed(t, vars, record, w).value;
            RecordIsCurrent(u) && u.loaded
  {
    if record.Save? {
      SavedIsCurrent(record.state);
    }
  }

  /** After every refresh, failed or not, the stored record equals the in-memory layer. */
  lemma {:induction false} RefreshKeepsRecordCurrent(s: Shell, force: bool, w: World)
    requires Typed(w) && RecordIsCurrent(s)
    ensures RecordIsCurrent(Refreshed(s, force, w).0)
    ensures Refreshed(s, force, w).1.Some? ==> Refreshed(s, force, w).0.loaded
  {
    if Refreshed(s, force, w).1.Some? {
      var t := Loaded(s, force, w).value;
      var tr := RefreshInner(force, t.vars, t.active, w).value;
      if tr.record.Save? {
        SavedStateIsTyped(t, force, w);
      }
      CommitKeepsRecordCurrent(t, Apply(t.vars, tr.changes).value, tr.record, w);
    }
  }

  // No layer leaks.

  /** The change lists denv adds for itself touch its own names only. */
  lemma {:induction false} InternalChanges(v: Vars, changes: seq<EnvChange>)
    requires forall c :: c in changes ==> Internal(c.name)
    requires Apply(v, changes).Some?
    ensures Agree(Apply(v, changes).value, v)
  {
    forall n | !Internal(n)
      ensures At(Apply(v, changes).value, n) == At(v, n)
    {
      ApplyFrame(v, changes, n);
    }
  }

  lemma {:induction false} MarksAreInternal(dir: Bytes, f: Files)
    ensures forall c :: c in CLEAR_RUNTIME + MarkDirty(dir) + MarkLoaded(dir, f) ==> Internal(c.name) && (c.SetTo? || c.UnsetIt?)
  {
    assert Internal(DENV_DIR) && Internal(DENV_DIRTY) && Internal(DENV_STATE);
  }

  lemma {:induction false} DiffTouches(d: Diff, n: Variables.Name)
    ensures Touches(DiffChanges(d), n) <==> n in DiffNames(d)
  {
    var changes, names := DiffChanges(d), DiffNames(d);
    assert |changes| == |names|;
    assert forall i :: 0 <= i < |names| ==> changes[i].name == names[i];
    if n in names {
      var i :| 0 <= i < |names| && names[i] == n;
      assert changes[i] in changes;
    }
  }

  /** Taking off a layer just put on gives back the store it was put on. */
  lemma {:induction false} NewLayerComesOff(working: Vars, d: Diff, marks: seq<EnvChange>)
    requires forall c :: c in marks ==> Internal(c.name) && (c.SetTo? || c.UnsetIt?)
    requires Apply(working, DiffChanges(d) + marks).Some?
    ensures var after := Apply(working, DiffChanges(d) + marks).value;
            var r := Apply(after, RestoreChanges(CapturePrev(d, working)));
            r.Some? && Agree(r.value, working)
  {
    var changes := DiffChanges(d) + marks;
    var after := Apply(working, changes).value;
    var names := DiffNames(d);
    var prev := CapturePrev(d, working);
    forall n
      ensures n in names ==> !Locked(working, n) && !Locked(after, n)
      ensures n !in names && !Internal(n) ==> At(after, n) == At(working, n)
    {
      LayerAt(working, d, marks, n);
    }
    RestoreIs(after, prev);
    if AnyLocked(after, prev) {
      var p :| p in prev && Locked(after, p.name);
      CaptureLists(names, working, p.name);
      assert false;
    }
    forall n | !Internal(n)
      ensures At(PutAll(after, prev), n) == At(working, n)
    {
      if n in names {
        CaptureIsPutBack(after, names, working, n);
      } else {
        CaptureLists(names, working, n);
        PutAllFrame(after, prev, n);
      }
    }
  }

  lemma {:induction false} LayerAt(working: Vars, d: Diff, marks: seq<EnvChange>, n: Variables.Name)
    requires forall c :: c in marks ==> Internal(c.name) && (c.SetTo? || c.UnsetIt?)
    requires Apply(working, DiffChanges(d) + marks).Some?
    ensures var after := Apply(working, DiffChanges(d) + marks).value;
            && (n in DiffNames(d) ==> !Locked(working, n) && !Locked(after, n))
            && (n !in DiffNames(d) && !Internal(n) ==> At(after, n) == At(working, n))
  {
    var changes := DiffChanges(d) + marks;
    DiffTouches(d, n);
    if n in DiffNames(d) {
      var c :| c in DiffChanges(d) && c.name == n;
      assert c in changes;
      ApplyUnlocked(working, changes, n);
    } else if !Internal(n) {
      ApplyFrame(working, changes, n);
    }
  }

  /** What the store would be without the layer survives every refresh of a loaded session:
      the restore list always applies and always gives back the same bindings. */
  lemma {:induction false} RefreshKeepsBase(s: Shell, force: bool, w: World)
    requires s.loaded && Restored(s.vars, s.active).Some?
    ensures var t := Refreshed(s, force, w).0;
            var r := Restored(t.vars, t.active);
            r.Some? && Agree(r.value, Restored(s.vars, s.active).value)
  {
    var t := Refreshed(s, force, w).0;
    var inner := RefreshInner(force, s.vars, s.active, w);
    if Refreshed(s, force, w).1.Some? && !inner.value.record.Keep? {
      var restore := RestoreChanges(PrevList(s.active));
      var working := Restored(s.vars, s.active).value;
      var tail := inner.value.changes[|restore|..];
      assert inner.value.changes == restore + tail;
      ApplyConcat(s.vars, restore, tail);
      assert t.vars == Apply(working, tail).value;
      if inner.value.record.Clear? {
        ClearTail(force, s.vars, s.active, w, tail);
        InternalChanges(working, tail);
        assert RestoreChanges([]) == [];
      } else {
        var f := w.found.value;
        MarksAreInternal(Canonical(w, f.dir), f);
        NewLayerComesOff(working, LayerDiff(w, f, working).value, MarkLoaded(Canonical(w, f.dir), f));
      }
    }
  }

  lemma {:induction false} ClearTail(force: bool, vars: Vars, active: Option<ActiveState>, w: World, tail: seq<EnvChange>)
    requires RefreshInner(force, vars, active, w).Some? && RefreshInner(force, vars, active, w).value.record.Clear?
    requires RefreshInner(force, vars, active, w).value.changes == RestoreChanges(PrevList(active)) + tail
    ensures forall c :: c in tail ==> Internal(c.name)
  {
    var restore := RestoreChanges(PrevList(active));
    assert (restore + tail)[|restore|..] == tail;
    if w.found.None? {
      assert (restore + CLEAR_RUNTIME)[|restore|..] == CLEAR_RUNTIME;
      MarksAreInternal([], Files([], None, None));
    } else {
      var dir := Canonical(w, w.found.value.dir);
      assert (restore + MarkDirty(dir))[|restore|..] == MarkDirty(dir);
      MarksAreInternal(dir, w.found.value);
    }
  }

  /** Leaving every project gives the base store back, with denv's own names cleared. */
  lemma {:induction false} LeavingRestoresBase(s: Shell, force: bool, w: World)
    requires s.loaded && w.found.None? && Refreshed(s, force, w).1.Some?
    ensures var t := Refreshed(s, force, w).0;
            && t.active.None? && t.disk.None?
            && Restored(s.vars, s.active).Some? && Agree(t.vars, Restored(s.vars, s.active).value)
            && DENV_DIR !in t.vars && DENV_DIRTY !in t.vars && DENV_STATE !in t.vars
  {
    RefreshKeepsBase(s, force, w);
    var t := Refreshed(s, force, w).0;
    assert RestoreChanges([]) == [];
    var working := Restored(s.vars, s.active).value;
    ApplyConcat(s.vars, RestoreChanges(PrevList(s.active)), CLEAR_RUNTIME);
    ClearedNames(working);
  }

  lemma {:induction false} ClearedNames(v: Vars)
    requires Apply(v, CLEAR_RUNTIME).Some?
    ensures var t := Apply(v, CLEAR_RUNTIME).value;
            DENV_DIR !in t && DENV_DIRTY !in t && DENV_STATE !in t
  {
    NamesDiffer();
    ApplyThree(v, CLEAR_RUNTIME);
  }

  // What a loaded layer shows.

  function SetChanges(pairs: seq<Pair>): seq<EnvChange> {
    seq(|pairs|, i requires 0 <= i < |pairs| => SetTo(pairs[i].name, pairs[i].value))
  }

  function UnsetChanges(names: seq<Variables.Name>): seq<EnvChange> {
    seq(|names|, i requires 0 <= i < |names| => UnsetIt(names[i]))
  }

  /** The binding a layer gives a name: unset wins, then the last set, exported. */
  function LayerBinding(d: Diff, n: Variables.Name, under: Option<Binding>): Option<Binding> {
    if n in d.unset then None
    else if n in AsMap(d.set_) then Some(Binding(Some(AsMap(d.set_)[n]), true, false))
    else under
  }

  lemma {:induction false} SetsShow(v: Vars, pairs: seq<Pair>, n: Variables.Name)
    requires Apply(v, SetChanges(pairs)).Some?
    ensures At(Apply(v, SetChanges(pairs)).value, n)
            == if n in AsMap(pairs) then Some(Binding(Some(AsMap(pairs)[n]), true, false)) else At(v, n)
    decreases |pairs|
  {
    if pairs != [] {
      var front, last := pairs[..|pairs| - 1], pairs[|pairs| - 1];
      var c := SetTo(last.name, last.value);
      assert SetChanges(pairs) == SetChanges(front) + [c];
      ApplyConcat(v, SetChanges(front), [c]);
      SetsShow(v, front, n);
      var w := Apply(v, SetChanges(front)).value;
      ApplyShort(w, [c]);
      if n != last.name {
        ApplyOneFrame(w, c, n);
      }
    }
  }

  lemma {:induction false} UnsetsShow(v: Vars, names: seq<Variables.Name>, n: Variables.Name)
    requires Apply(v, UnsetChanges(names)).Some?
    ensures At(Apply(v, UnsetChanges(names)).value, n) == if n in names then None else At(v, n)
    decreases |names|
  {
    if names != [] {
      var front, last := names[..|names| - 1], names[|names| - 1];
      var c := UnsetIt(last);
      assert UnsetChanges(names) == UnsetChanges(front) + [c] && names == front + [last];
      ApplyConcat(v, UnsetChanges(front), [c]);
      UnsetsShow(v, front, n);
      var w := Apply(v, UnsetChanges(front)).value;
      ApplyShort(w, [c]);
      if n != last {
        ApplyOneFrame(w, c, n);
      }
    }
  }

  /** The store under a layer, seen through it. */
  lemma {:induction false} LayerShows(working: Vars, d: Diff, marks: seq<EnvChange>, n: Variables.Name)
    requires forall c :: c in marks ==> Internal(c.name)
    requires Apply(working, DiffChanges(d) + marks).Some? && !Internal(n)
    ensures At(Apply(working, DiffChanges(d) + marks).value, n) == LayerBinding(d, n, At(working, n))
  {
    ApplyConcat(working, DiffChanges(d), marks);
    ApplyConcat(working, SetChanges(d.set_), UnsetChanges(d.unset));
    var set_ := Apply(working, SetChanges(d.set_)).value;
    SetsShow(working, d.set_, n);
    UnsetsShow(set_, d.unset, n);
    InternalChanges(Apply(working, DiffChanges(d)).value, marks);
  }

  /** A refresh that loads a layer shows, at every name, that layer over the base. */
  lemma {:induction false} RefreshShowsLayer(s: Shell, force: bool, w: World, n: Variables.Name)
    requires s.loaded && Refreshed(s, force, w).1.Some? && !Internal(n)
    requires RefreshInner(force, s.vars, s.active, w).value.record.Save?
    ensures var working := Restored(s.vars, s.active).value;
            var d := LayerDiff(w, w.found.value, working).value;
            At(Refreshed(s, force, w).0.vars, n) == LayerBinding(d, n, At(working, n))
  {
    var working := Restored(s.vars, s.active).value;
    var f := w.found.value;
    var d := LayerDiff(w, f, working).value;
    var marks := MarkLoaded(Canonical(w, f.dir), f);
    ApplyConcat(s.vars, RestoreChanges(PrevList(s.active)), DiffChanges(d) + marks);
    MarksAreInternal(Canonical(w, f.dir), f);
    LayerShows(working, d, marks, n);
  }

  function Lookup(m: map<Variables.Name, Bytes>, n: Variables.Name): Option<Bytes> {
    if n in m then Some(m[n]) else None
  }

  /** With the difference of two snapshots, a child process sees at every compared name
      exactly what the evaluation ended with. */
  lemma {:induction false} ChildSeesTheEvaluatedValue(
    working: Vars, before: seq<Pair>, after: seq<Pair>, marks: seq<EnvChange>, n: Variables.Name)
    requires Sorted(before) && Sorted(after)
    requires Lookup(AsMap(before), n) == Lookup(Environment(working), n)
    requires forall c :: c in marks ==> Internal(c.name)
    requires var d := Diff(Added(after, before), Dropped(before, after));
             Apply(working, DiffChanges(d) + marks).Some? && !Internal(n)
    ensures var d := Diff(Added(after, before), Dropped(before, after));
            Lookup(Environment(Apply(working, DiffChanges(d) + marks).value), n) == Lookup(AsMap(after), n)
  {
    var d := Diff(Added(after, before), Dropped(before, after));
    var t := Apply(working, DiffChanges(d) + marks).value;
    LayerShows(working, d, marks, n);
    PatchedAt(before, after, n);
    assert Lookup(Environment(t), n) == EnvironmentAt(At(t, n));
    assert Lookup(Environment(working), n) == EnvironmentAt(At(working, n));
  }

  function EnvironmentAt(b: Option<Binding>): Option<Bytes> {
    if b.Some? && b.value.exported then b.value.value else None
  }

  // Runs.

  datatype Event =
    | DoRefresh(force: bool, world: World)
    | Edit(name: Variables.Name, binding: Option<Binding>)

  function Next(s: Shell, e: Event): Shell {
    match e
    case DoRefresh(force, w) => Refreshed(s, force, w).0
    case Edit(name, binding) => s.(vars := Put(s.vars, name, binding))
  }

  /** A user edit reaches the base exactly when no layer covers the name. */
  function NextBase(s: Shell, base: Vars, e: Event): Vars {
    match e
    case DoRefresh(_, _) => base
    case Edit(name, binding) => if Lists(PrevList(s.active), name) then base else Put(base, name, binding)
  }

  predicate Permitted(s: Shell, e: Event) {
    match e
    case DoRefresh(_, w) => Typed(w)
    case Edit(name, binding) => binding.Some? && binding.value.readonly ==> !Lists(PrevList(s.active), name)
  }

  predicate PermittedRun(s: Shell, events: seq<Event>)
    decreases |events|
  {
    events == [] || (Permitted(s, events[0]) && PermittedRun(Next(s, events[0]), events[1..]))
  }

  function Run(s: Shell, events: seq<Event>): Shell
    decreases |events|
  {
    if events == [] then s else Run(Next(s, events[0]), events[1..])
  }

  function RunBase(s: Shell, base: Vars, events: seq<Event>): Vars
    decreases |events|
  {
    if events == [] then base else RunBase(Next(s, events[0]), NextBase(s, base, events[0]), events[1..])
  }

  ghost predicate Layered(s: Shell, base: Vars) {
    var r := Restored(s.vars, s.active);
    r.Some? && Agree(r.value, base)
  }

  lemma {:induction false} EditKeepsLayered(s: Shell, base: Vars, name: Variables.Name, binding: Option<Binding>)
    requires Layered(s, base) && Permitted(s, Edit(name, binding))
    ensures Layered(Next(s, Edit(name, binding)), NextBase(s, base, Edit(name, binding)))
  {
    var prev := PrevList(s.active);
    var v, w := s.vars, Put(s.vars, name, binding);
    RestoreIs(v, prev);
    RestoreIs(w, prev);
    var base' := NextBase(s, base, Edit(name, binding));
    forall n | !Internal(n)
      ensures At(PutAll(w, prev), n) == At(base', n)
    {
      if n != name || Lists(prev, n) {
        PutAllListed(v, w, prev, n);
      } else {
        PutAllFrame(w, prev, n);
      }
    }
  }

  /** A loaded session, or one that has not read its record and has none. */
  predicate Started(s: Shell) {
    s.loaded || (s.active.None? && s.disk.None?)
  }

  /** Reading a record that is not there changes nothing but the flag. */
  lemma {:induction false} FirstRefresh(s: Shell, force: bool, w: World)
    requires Started(s)
    ensures Refreshed(s, force, w) == (s, None) || Refreshed(s, force, w) == Refreshed(s.(loaded := true), force, w)
    ensures Started(Refreshed(s, force, w).0)
  {
  }

  /** Over every run of refreshes and edits, whatever the files, evaluations and failures,
      taking off the active layer succeeds and gives the base: the starting store as the
      user edited it. */
  lemma {:induction false} NoLayerLeaks(s: Shell, base: Vars, events: seq<Event>)
    requires Started(s) && Layered(s, base) && RecordIsCurrent(s) && PermittedRun(s, events)
    ensures Layered(Run(s, events), RunBase(s, base, events))
    ensures RecordIsCurrent(Run(s, events)) && Started(Run(s, events))
    decreases |events|
  {
    if events != [] {
      var e := events[0];
      match e {
        case DoRefresh(force, w) =>
          FirstRefresh(s, force, w);
          RefreshKeepsBase(s.(loaded := true), force, w);
          RefreshKeepsRecordCurrent(s, force, w);
        case Edit(name, binding) =>
          EditKeepsLayered(s, base, name, binding);
      }
      NoLayerLeaks(Next(s, e), NextBase(s, base, e), events[1..]);
    }
  }

  /** From a fresh session, any run followed by leaving every project ends with the base
      store: moving from project to project leaves nothing behind. */
  lemma {:induction false} LeavingEndsEveryLayer(vars: Vars, events: seq<Event>, force: bool, w: World)
    requires PermittedRun(Shell(vars, None, false, None), events) && w.found.None?
    requires Refreshed(Run(Shell(vars, None, false, None), events), force, w).1.Some?
    ensures var s := Shell(vars, None, false, None);
            Agree(Refreshed(Run(s, events), force, w).0.vars, RunBase(s, vars, events))
  {
    var s := Shell(vars, None, false, None);
    assert RestoreChanges([]) == [];
    NoLayerLeaks(s, vars, events);
    var t := Run(s, events);
    FirstRefresh(t, force, w);
    LeavingRestoresBase(t.(loaded := true), force, w);
  }

  /** Without edits the base is the starting store. */
  lemma {:induction false} BaseWithoutEdits(s: Shell, base: Vars, events: seq<Event>)
    requires forall e :: e in events ==> e.DoRefresh?
    ensures RunBase(s, base, events) == base
    decreases |events|
  {
    if events != [] {
      assert events[0] in events && forall e :: e in events[1..] ==> e in events;
      BaseWithoutEdits(Next(s, events[0]), base, events[1..]);
    }
  }

  // Nothing to do.

  lemma {:induction false} StateRoundTrip(f: Files)
    requires Mtime(f.envrc) < U64 && Mtime(f.dotenv) < U64
    ensures ParseState(StateValue(f)) == Some((Mtime(f.envrc), Mtime(f.dotenv), f.dir))
  {
    var e, d := Mtime(f.envrc), Mtime(f.dotenv);
    DecimalIsPlain(e);
    DecimalIsPlain(d);
    DecimalRoundTrip(e);
    DecimalRoundTrip(d);
    SplitJoin(Decimal(e), SPACE, Decimal(d) + [SPACE] + f.dir);
    SplitJoin(Decimal(d), SPACE, f.dir);
  }

  predicate Exports(v: Vars, n: Variables.Name, value: Bytes) {
    At(v, n) == Some(Binding(Some(value), true, false))
  }

  lemma {:induction false} ApplyThree(v: Vars, c: seq<EnvChange>)
    requires |c| == 3 && Apply(v, c).Some?
    ensures var first := ApplyOne(v, c[0]);
            first.Some?
            && var second := ApplyOne(first.value, c[1]);
               second.Some? && Apply(v, c) == ApplyOne(second.value, c[2])
  {
    assert c == c[..1] + c[1..];
    ApplyConcat(v, c[..1], c[1..]);
    ApplyShort(v, c[..1]);
    ApplyShort(Apply(v, c[..1]).value, c[1..]);
  }

  lemma {:induction false} NamesDiffer()
    ensures DENV_DIR != DENV_DIRTY && DENV_DIR != DENV_STATE && DENV_DIRTY != DENV_STATE
  {
    assert DENV_DIRTY[7] == 68 && DENV_STATE[7] == 83 && |DENV_DIR| == 10 && |DENV_DIRTY| == 12;
  }

  lemma {:induction false} MarkedLoaded(v: Vars, dir: Bytes, f: Files)
    requires Apply(v, MarkLoaded(dir, f)).Some?
    ensures var t := Apply(v, MarkLoaded(dir, f)).value;
            Exports(t, DENV_DIR, dir) && DENV_DIRTY !in t && Exports(t, DENV_STATE, StateValue(f))
  {
    NamesDiffer();
    ApplyThree(v, MarkLoaded(dir, f));
  }

  lemma {:induction false} MarkedDirty(v: Vars, dir: Bytes)
    requires Apply(v, MarkDirty(dir)).Some?
    ensures var t := Apply(v, MarkDirty(dir)).value;
            Exports(t, DENV_DIR, dir) && Exports(t, DENV_DIRTY, [49]) && DENV_STATE !in t
  {
    NamesDiffer();
    ApplyThree(v, MarkDirty(dir));
  }

  /** The store a loading refresh publishes: the layer, then denv's marks. */
  lemma {:induction false} LoadedVars(s: Shell, force: bool, w: World) returns (layer: Vars)
    requires s.loaded && Refreshed(s, force, w).1.Some?
    requires RefreshInner(force, s.vars, s.active, w).value.record.Save?
    ensures w.found.Some?
            && Apply(layer, MarkLoaded(Canonical(w, w.found.value.dir), w.found.value)) == Some(Refreshed(s, force, w).0.vars)
  {
    var working := Restored(s.vars, s.active).value;
    var f := w.found.value;
    var d := LayerDiff(w, f, working).value;
    var marks := MarkLoaded(Canonical(w, f.dir), f);
    ApplyConcat(s.vars, RestoreChanges(PrevList(s.active)), DiffChanges(d) + marks);
    ApplyConcat(working, DiffChanges(d), marks);
    layer := Apply(working, DiffChanges(d)).value;
  }

  /** A project that loads is marked with its directory and the state of its files. */
  lemma {:induction false} LoadedIsMarked(s: Shell, force: bool, w: World)
    requires s.loaded && Refreshed(s, force, w).1.Some?
    requires RefreshInner(force, s.vars, s.active, w).value.record.Save?
    ensures w.found.Some?
    ensures var v := Refreshed(s, force, w).0.vars;
            && Exports(v, DENV_DIR, Canonical(w, w.found.value.dir)) && DENV_DIRTY !in v
            && Exports(v, DENV_STATE, StateValue(w.found.value))
  {
    var layer := LoadedVars(s, force, w);
    var f := w.found.value;
    MarkedLoaded(layer, Canonical(w, f.dir), f);
  }

  /** A project that is blocked or fails to evaluate is marked dirty, has no layer, and is
      tried again by the next refresh whatever that finds. */
  lemma {:induction false} FailedIsRetried(s: Shell, force: bool, w: World, again: World)
    requires s.loaded && w.found.Some? && Refreshed(s, force, w).1.Some?
    requires RefreshInner(force, s.vars, s.active, w).value.record.Clear?
    ensures var t := Refreshed(s, force, w).0;
            && Exports(t.vars, DENV_DIR, Canonical(w, w.found.value.dir)) && Exports(t.vars, DENV_DIRTY, [49])
            && t.active.None? && t.disk.None?
            && var next := RefreshInner(false, t.vars, t.active, again);
               next.Some? ==> !next.value.record.Keep?
  {
    var working := Restored(s.vars, s.active).value;
    var dir := Canonical(w, w.found.value.dir);
    ApplyConcat(s.vars, RestoreChanges(PrevList(s.active)), MarkDirty(dir));
    MarkedDirty(working, dir);
  }

  /** Refreshing again with the same allowed files is a no-op. */
  lemma {:induction false} SecondRefreshKeeps(s: Shell, force: bool, w: World, again: World)
    requires s.loaded && w.found.Some? && w.allowed && Refreshed(s, force, w).1.Some?
    requires Refreshed(s, force, w).0.active.Some?
    requires forall p :: w.canonical(p).Some? ==> w.canonical(w.canonical(p).value) == w.canonical(p)
    requires again.found == w.found && again.allowed && again.canonical == w.canonical
    ensures Refreshed(Refreshed(s, force, w).0, false, again).0 == Refreshed(s, force, w).0
  {
    var t := Refreshed(s, force, w).0;
    var inner := RefreshInner(force, s.vars, s.active, w);
    if inner.value.record.Save? {
      assert RecordMatches(again, w.found.value, t.active);
    }
  }
}
