/** Which files the active layer belongs to: when a refresh may keep a layer, and that no
    run leaves a project under another project's layer. */
module LayerFiles {
  import opened Text
  import opened Bytes
  import opened Variables
  import opened ActiveRecord
  import opened EnvDiff
  import opened EnvLayer
  import opened Denv

  type Resolver = Bytes -> Option<Bytes>

  /** Canonical paths are their own canonical form. */
  ghost predicate Settled(canonical: Resolver) {
    forall p :: canonical(p).Some? ==> canonical(canonical(p).value) == canonical(p)
  }

  /** One directory, under one name or two names of the same canonical form. */
  predicate SamePlace(canonical: Resolver, a: Bytes, b: Bytes) {
    a == b || (canonical(a).Some? && canonical(a) == canonical(b))
  }

  /** A file that is there has the recorded time; one that is not there is recorded as 0. */
  predicate SameTime(recorded: nat, found: Option<nat>) {
    found == Some(recorded) || (found.None? && recorded == 0)
  }

  /** There is no layer, or it was loaded from the allowed files that are here now. */
  predicate BelongsTo(active: Option<ActiveState>, w: World) {
    active.Some? ==>
      && w.found.Some? && w.allowed
      && SameTime(active.value.envrcMtime, w.found.value.envrc)
      && SameTime(active.value.dotenvMtime, w.found.value.dotenv)
      && SamePlace(w.canonical, active.value.dir, w.found.value.dir)
  }

  /** `__DENV_STATE` tells the same story as the active record, for the directory as found. */
  predicate MarkedAs(s: Shell, canonical: Resolver, dir: Bytes)
    requires s.active.Some?
  {
    var a := s.active.value;
    && a.envrcMtime < U64 && a.dotenvMtime < U64
    && Exports(s.vars, DENV_STATE, StateValue(Files(dir, Some(a.envrcMtime), Some(a.dotenvMtime))))
    && a.dir == if canonical(dir).Some? then canonical(dir).value else dir
  }

  ghost predicate Marked(s: Shell, canonical: Resolver) {
    s.active.Some? ==> exists dir :: MarkedAs(s, canonical, dir)
  }

  /** A layer kept because of the state variable belongs to the files found. */
  lemma {:induction false} KeptByState(s: Shell, w: World, f: Files)
    requires s.active.Some? && Marked(s, w.canonical) && Settled(w.canonical)
    requires w.found == Some(f) && w.allowed && StateMatches(w, f, s.vars)
    ensures BelongsTo(s.active, w)
  {
    var dir :| MarkedAs(s, w.canonical, dir);
    var a := s.active.value;
    StateRoundTrip(Files(dir, Some(a.envrcMtime), Some(a.dotenvMtime)));
    assert dir == f.dir || w.canonical(f.dir) == Some(dir);
  }

  /** A layer just loaded belongs to the files found, and is marked. */
  lemma {:induction false} LoadedBelongs(s: Shell, force: bool, w: World)
    requires s.loaded && Typed(w) && Settled(w.canonical) && Refreshed(s, force, w).1.Some?
    requires RefreshInner(force, s.vars, s.active, w).value.record.Save?
    ensures BelongsTo(Refreshed(s, force, w).0.active, w) && Marked(Refreshed(s, force, w).0, w.canonical)
  {
    var t := Refreshed(s, force, w).0;
    LoadedIsMarked(s, force, w);
    var f := w.found.value;
    assert StateValue(f) == StateValue(Files(f.dir, Some(t.active.value.envrcMtime), Some(t.active.value.dotenvMtime)));
    assert MarkedAs(t, w.canonical, f.dir);
  }

  /** After a successful refresh the layer, if there is one, is that of the files found. */
  lemma {:induction false} RefreshBelongs(s: Shell, force: bool, w: World)
    requires s.loaded && Typed(w) && Settled(w.canonical) && Marked(s, w.canonical)
    ensures Marked(Refreshed(s, force, w).0, w.canonical)
    ensures Refreshed(s, force, w).1.Some? ==> BelongsTo(Refreshed(s, force, w).0.active, w)
  {
    if Refreshed(s, force, w).1.Some? {
      var inner := RefreshInner(force, s.vars, s.active, w).value;
      if inner.record.Save? {
        LoadedBelongs(s, force, w);
      } else if inner.record.Keep? && s.active.Some? {
        var f := w.found.value;
        if StateMatches(w, f, s.vars) {
          KeptByState(s, w, f);
        }
      }
    }
  }

  /** A run on one file tree in which the user leaves denv's own names alone. */
  ghost predicate OneTree(events: seq<Event>, canonical: Resolver) {
    forall e :: e in events ==>
      match e
      case DoRefresh(_, w) => Typed(w) && w.canonical == canonical
      case Edit(name, _) => !Internal(name)
  }

  lemma {:induction false} RunIsMarked(s: Shell, events: seq<Event>, canonical: Resolver)
    requires Started(s) && Settled(canonical) && Marked(s, canonical) && OneTree(events, canonical)
    ensures Started(Run(s, events)) && Marked(Run(s, events), canonical)
    decreases |events|
  {
    if events != [] {
      var e := events[0];
      assert e in events && forall d :: d in events[1..] ==> d in events;
      match e {
        case DoRefresh(force, w) =>
          FirstRefresh(s, force, w);
          RefreshBelongs(s.(loaded := true), force, w);
        case Edit(name, binding) =>
          EditKeepsMarked(s, name, binding, canonical);
      }
      RunIsMarked(Next(s, e), events[1..], canonical);
    }
  }

  lemma {:induction false} EditKeepsMarked(s: Shell, name: Variables.Name, binding: Option<Binding>, canonical: Resolver)
    requires Marked(s, canonical) && !Internal(name)
    ensures Marked(Next(s, Edit(name, binding)), canonical)
  {
    var t := Next(s, Edit(name, binding));
    assert Internal(DENV_STATE);
    if s.active.Some? {
      var dir :| MarkedAs(s, canonical, dir);
      assert MarkedAs(t, canonical, dir);
    }
  }

  /** Over any run from a fresh session, whatever was loaded, kept, blocked or failed: a
      successful refresh never leaves the shell under a layer of other files, of an older
      version of them, or of files that are not allowed. */
  lemma {:induction false} LayerBelongsToItsFiles(vars: Vars, events: seq<Event>, canonical: Resolver, force: bool, w: World)
    requires Settled(canonical) && OneTree(events, canonical) && Typed(w) && w.canonical == canonical
    requires Refreshed(Run(Shell(vars, None, false, None), events), force, w).1.Some?
    ensures BelongsTo(Refreshed(Run(Shell(vars, None, false, None), events), force, w).0.active, w)
  {
    var s := Shell(vars, None, false, None);
    RunIsMarked(s, events, canonical);
    var t := Run(s, events);
    FirstRefresh(t, force, w);
    RefreshBelongs(t.(loaded := true), force, w);
  }

  /** A forced refresh that succeeds always changes something: with no allowed files it
      ends without a layer, and otherwise it evaluates and records the files anew. */
  lemma {:induction false} ForcedNeverKeeps(s: Shell, w: World)
    requires s.loaded && Refreshed(s, true, w).1.Some?
    ensures Refreshed(s, true, w).1 != Some([])
    ensures var t := Refreshed(s, true, w).0;
            if w.found.Some? && w.allowed && (w.found.value.envrc.None? || w.eval.Some?)
            then t.active.Some? && t.active.value.dir == Canonical(w, w.found.value.dir)
                 && SameTime(t.active.value.envrcMtime, w.found.value.envrc)
                 && SameTime(t.active.value.dotenvMtime, w.found.value.dotenv)
            else t.active.None? && t.disk.None?
  {
    var changes := Refreshed(s, true, w).1.value;
    assert changes[|changes| - 1] in changes;
  }

  /** Files that cannot be read or parsed, a relative working directory, a readonly name in
      the layer's way, and a record that cannot be updated all leave everything as it was. */
  lemma {:induction false} ErrorsAreRefused(s: Shell, force: bool, w: World)
    requires s.loaded
    requires || !w.cwdIsAbsolute
             || (w.found.Some? && !w.readable)
             || (w.found.Some? && w.allowed && w.found.value.dotenv.Some? && w.entries.None?)
             || ((force || w.found.None? || !w.allowed) && AnyLocked(s.vars, PrevList(s.active)))
             || ((force || w.found.None? || !w.allowed) && !w.cleared && !w.saved)
    ensures Refreshed(s, force, w) == (s, None)
  {
    RestoreIs(s.vars, PrevList(s.active));
  }

  /** A blocked file and a failing evaluation are not errors: the old layer comes off, the
      project is marked dirty and the record removed, unless a readonly name forbids it. */
  lemma {:induction false} FailedLayerComesOff(s: Shell, w: World)
    requires s.loaded && w.cwdIsAbsolute && w.found.Some? && !FilesFail(w, w.found.value) && w.cleared
    requires !w.allowed || (w.found.value.envrc.Some? && w.eval.None?)
    requires !AnyLocked(s.vars, PrevList(s.active))
    requires !Locked(PutAll(s.vars, PrevList(s.active)), DENV_DIR) && !Locked(PutAll(s.vars, PrevList(s.active)), DENV_DIRTY)
             && !Locked(PutAll(s.vars, PrevList(s.active)), DENV_STATE)
    ensures Refreshed(s, true, w).1.Some? && Refreshed(s, true, w).0.active.None?
    ensures Agree(Refreshed(s, true, w).0.vars, PutAll(s.vars, PrevList(s.active)))
    ensures Exports(Refreshed(s, true, w).0.vars, DENV_DIRTY, [49])
  {
    var base := PutAll(s.vars, PrevList(s.active));
    var dir := Canonical(w, w.found.value.dir);
    RestoreIs(s.vars, PrevList(s.active));
    ApplyConcat(s.vars, RestoreChanges(PrevList(s.active)), MarkDirty(dir));
    MarkDirtyApplies(base, dir);
    MarkedDirty(base, dir);
    MarksAreInternal(dir, w.found.value);
    InternalChanges(base, MarkDirty(dir));
  }

  lemma {:induction false} MarkDirtyApplies(v: Vars, dir: Bytes)
    requires !Locked(v, DENV_DIR) && !Locked(v, DENV_DIRTY) && !Locked(v, DENV_STATE)
    ensures Apply(v, MarkDirty(dir)).Some?
  {
    NamesDiffer();
    var c := MarkDirty(dir);
    var first := ApplyOne(v, c[0]).value;
    ApplyOneFrame(v, c[0], DENV_DIRTY);
    ApplyOneFrame(v, c[0], DENV_STATE);
    ApplyOneFrame(first, c[1], DENV_STATE);
    assert c == c[..1] + c[1..];
    ApplyConcat(v, c[..1], c[1..]);
    ApplyShort(v, c[..1]);
    ApplyShort(first, c[1..]);
  }

  /** A record that cannot be understood stops every refresh until one is forced, which
      discards it and starts without a layer. */
  lemma {:induction false} MalformedRecord(s: Shell, force: bool, w: World)
    requires !s.loaded && w.recordReadable && s.disk.Some? && (!Utf8(s.disk.value) || ParseActive(s.disk.value).None?)
    ensures !force || !w.cleared ==> Refreshed(s, force, w) == (s, None)
    ensures force && w.cleared ==>
              Refreshed(s, force, w) == Refreshed(s.(loaded := true, active := None, disk := None), force, w)
  {
  }

  /** A record that is understood becomes the layer in memory. */
  lemma {:induction false} RecordIsLoaded(s: Shell, force: bool, w: World, state: ActiveState)
    requires !s.loaded && w.recordReadable && WellTyped(state) && Storable(state) && s.disk == Some(Render(state))
    ensures Refreshed(s, force, w) == Refreshed(s.(loaded := true, active := Some(state)), force, w)
  {
    SavedIsCurrent(state);
  }

  /** With an `.envrc`, a refresh that is not a no-op shows what the evaluation said, over the base. */
  lemma {:induction false} EvaluationIsShown(s: Shell, force: bool, w: World, d: Diff, n: Variables.Name)
    requires s.loaded && Refreshed(s, force, w).1.Some? && Refreshed(s, force, w).1.value != [] && !Internal(n)
    requires w.found.Some? && w.allowed && w.found.value.envrc.Some? && w.eval == Some(d)
    ensures Restored(s.vars, s.active).Some?
    ensures At(Refreshed(s, force, w).0.vars, n)
            == if n in d.unset then None
               else if n in AsMap(d.set_) then Some(Binding(Some(AsMap(d.set_)[n]), true, false))
               else At(Restored(s.vars, s.active).value, n)
  {
    RefreshShowsLayer(s, force, w, n);
  }

  /** With only a `.env`, a child process sees the last value of every entry, exactly as a
      last-wins update of the base, unless a key is reverted; other names keep their binding. */
  lemma {:induction false} DotenvIsShown(s: Shell, force: bool, w: World, entries: seq<Pair>, n: Variables.Name)
    requires s.loaded && Refreshed(s, force, w).1.Some? && Refreshed(s, force, w).1.value != [] && !Internal(n)
    requires w.found.Some? && w.allowed && w.found.value.envrc.None? && w.found.value.dotenv.Some? && w.entries == Some(entries)
    ensures Restored(s.vars, s.active).Some?
    ensures var base := Restored(s.vars, s.active).value;
            var v := Refreshed(s, force, w).0.vars;
            && (NoRevert(entries, Environment(base)) && n in AsMap(entries) ==>
                  Lookup(Environment(v), n) == Some(AsMap(entries)[n]))
            && (n !in AsMap(entries) ==> At(v, n) == At(base, n))
  {
    RefreshShowsLayer(s, force, w, n);
    var base := Restored(s.vars, s.active).value;
    var v := Refreshed(s, force, w).0.vars;
    var env := Environment(base);
    DotenvOnlyAt(entries, env, n);
    if NoRevert(entries, env) {
      LastWinsAt(entries, env, n);
    }
    assert Lookup(Environment(v), n) == EnvironmentAt(At(v, n));
    assert Lookup(env, n) == EnvironmentAt(At(base, n));
  }

  /** The state variable alone keeps things as they are: a shell that inherits it loads
      nothing, and a directory whose link was pointed elsewhere, with the same times, keeps
      its old layer. */
  lemma {:induction false} StateIsTrusted(s: Shell, w: World, dir: Bytes)
    requires s.loaded && Typed(w) && w.cwdIsAbsolute && w.found.Some? && w.readable && w.allowed
    requires w.found.value.dotenv.Some? ==> w.entries.Some?
    requires dir == w.found.value.dir || w.canonical(w.found.value.dir) == Some(dir)
    requires Utf8(dir) && Exports(s.vars, DENV_STATE, StateValue(w.found.value.(dir := dir)))
    ensures Refreshed(s, false, w) == (s, Some([]))
  {
    var f := w.found.value.(dir := dir);
    StateRoundTrip(f);
    StateValueIsUtf8(f);
  }

  /** `__DENV_STATE` holds the active record's times, for a directory under any name. */
  ghost predicate SameTimes(s: Shell) {
    s.active.Some? ==>
      && s.active.value.envrcMtime < U64 && s.active.value.dotenvMtime < U64
      && exists dir :: Exports(s.vars, DENV_STATE,
                               StateValue(Files(dir, Some(s.active.value.envrcMtime), Some(s.active.value.dotenvMtime))))
  }

  /** With links that may have changed since: the layer a successful refresh ends with is that
      of the files found, unless an unforced refresh found the state variable to match while
      the record's directory is elsewhere by now. */
  lemma {:induction false} BelongsUnlessMoved(s: Shell, force: bool, w: World)
    requires s.loaded && Typed(w) && Settled(w.canonical) && SameTimes(s) && Refreshed(s, force, w).1.Some?
    ensures BelongsTo(Refreshed(s, force, w).0.active, w)
            <==> !(!force && s.active.Some? && w.found.Some? && w.allowed && StateMatches(w, w.found.value, s.vars)
                   && !SamePlace(w.canonical, s.active.value.dir, w.found.value.dir))
  {
    var inner := RefreshInner(force, s.vars, s.active, w).value;
    if inner.record.Save? {
      LoadedBelongs(s, force, w);
    } else if inner.record.Keep? && s.active.Some? && StateMatches(w, w.found.value, s.vars) {
      KeptTimes(s, w, w.found.value);
    }
  }

  lemma {:induction false} KeptTimes(s: Shell, w: World, f: Files)
    requires s.active.Some? && SameTimes(s) && w.found == Some(f) && w.allowed && StateMatches(w, f, s.vars)
    ensures BelongsTo(s.active, w) <==> SamePlace(w.canonical, s.active.value.dir, f.dir)
  {
    var a := s.active.value;
    var dir :| Exports(s.vars, DENV_STATE, StateValue(Files(dir, Some(a.envrcMtime), Some(a.dotenvMtime))));
    StateRoundTrip(Files(dir, Some(a.envrcMtime), Some(a.dotenvMtime)));
  }

  lemma {:induction false} AsciiThenUtf8(a: Bytes, b: Bytes)
    requires Ascii(a) && Utf8(b)
    ensures Utf8(a + b)
  {
    if a == [] {
      assert a + b == b;
    } else {
      assert a[0] in a && forall c :: c in a[1..] ==> c in a;
      AsciiThenUtf8(a[1..], b);
      assert (a + b)[1..] == a[1..] + b;
    }
  }

  lemma {:induction false} StateValueIsUtf8(f: Files)
    requires Utf8(f.dir)
    ensures Utf8(StateValue(f))
  {
    var e, d := Decimal(Mtime(f.envrc)), Decimal(Mtime(f.dotenv));
    DecimalIsPlain(Mtime(f.envrc));
    DecimalIsPlain(Mtime(f.dotenv));
    AsciiThenUtf8(e + [SPACE] + (d + [SPACE]), f.dir);
    assert e + [SPACE] + (d + [SPACE]) + f.dir == StateValue(f);
  }
}
