/** denv's environment layer: restore the old layer, evaluate, capture what the new layer
    hides, keep the record on disk, publish. */
module EnvLayer {
  import opened Text
  import opened Bytes
  import opened Variables
  import opened ActiveRecord
  import opened EnvDiff

  datatype EnvChange =
    | SetTo(name: Variables.Name, value: Bytes)
    | UnsetIt(name: Variables.Name)
    | Unexport(name: Variables.Name)
    | Declare(name: Variables.Name, exported: bool)

  datatype Diff = Diff(set_: seq<Pair>, unset: seq<Variables.Name>)

  // Names that belong to denv itself.

  const DENV: Bytes := [95, 95, 68, 69, 78, 86, 95]
  const DENV_DIR: Bytes := DENV + [68, 73, 82]
  const DENV_DIRTY: Bytes := DENV + [68, 73, 82, 84, 89]
  const DENV_STATE: Bytes := DENV + [83, 84, 65, 84, 69]

  predicate Internal(n: Variables.Name) {
    DENV <= n
  }

  /** The two stores have the same bindings (value, unassigned or unset, export and readonly
      flags) for every name that is not denv's own. */
  ghost predicate Agree(v: Vars, w: Vars) {
    forall n :: !Internal(n) ==> At(v, n) == At(w, n)
  }

  // Applying changes.

  function ApplyOne(v: Vars, c: EnvChange): Option<Vars> {
    match c
    case SetTo(name, value) =>
      (match SetValue(v, name, value) case None => None case Some(w) => Some(ExportName(w, name)))
    case UnsetIt(name) => UnsetName(v, name)
    case Unexport(name) => Some(UnexportName(v, name))
    case Declare(name, exported) =>
      Some(if exported then ExportName(DeclareName(v, name), name) else DeclareName(v, name))
  }

  function Apply(v: Vars, changes: seq<EnvChange>): Option<Vars>
    decreases |changes|
  {
    if changes == [] then Some(v)
    else
      match ApplyOne(v, changes[0])
      case None => None
      case Some(w) => Apply(w, changes[1..])
  }

  /** `apply_changes`: stops at the first refusal. */
  method ApplyChanges(v: Vars, changes: seq<EnvChange>) returns (r: Option<Vars>)
    ensures r == Apply(v, changes)
  {
    var w := v;
    var i := 0;
    while i < |changes|
      invariant 0 <= i <= |changes|
      invariant Apply(v, changes) == Apply(w, changes[i..])
    {
      var next := ApplyOne(w, changes[i]);
      assert changes[i..][1..] == changes[i + 1..];
      if next.None? {
        return None;
      }
      w := next.value;
      i := i + 1;
    }
    return Some(w);
  }

  function Then(v: Option<Vars>, changes: seq<EnvChange>): Option<Vars> {
    match v
    case None => None
    case Some(w) => Apply(w, changes)
  }

  lemma {:induction false} ApplyConcat(v: Vars, a: seq<EnvChange>, b: seq<EnvChange>)
    ensures Apply(v, a + b) == Then(Apply(v, a), b)
    decreases |a|
  {
    if a == [] {
      assert a + b == b;
    } else {
      assert (a + b)[1..] == a[1..] + b;
      var next := ApplyOne(v, a[0]);
      if next.Some? {
        ApplyConcat(next.value, a[1..], b);
      }
    }
  }

  predicate Touches(changes: seq<EnvChange>, n: Variables.Name) {
    exists c :: c in changes && c.name == n
  }

  lemma {:induction false} ApplyOneFrame(v: Vars, c: EnvChange, n: Variables.Name)
    requires ApplyOne(v, c).Some? && n != c.name
    ensures At(ApplyOne(v, c).value, n) == At(v, n)
  {
  }

  /** A name no change mentions keeps its binding. */
  lemma {:induction false} ApplyFrame(v: Vars, changes: seq<EnvChange>, n: Variables.Name)
    requires Apply(v, changes).Some? && !Touches(changes, n)
    ensures At(Apply(v, changes).value, n) == At(v, n)
    decreases |changes|
  {
    if changes != [] {
      assert changes[0] in changes;
      ApplyOneFrame(v, changes[0], n);
      assert forall c :: c in changes[1..] ==> c in changes;
      ApplyFrame(ApplyOne(v, changes[0]).value, changes[1..], n);
    }
  }

  predicate Forceful(changes: seq<EnvChange>) {
    forall c :: c in changes ==> c.SetTo? || c.UnsetIt?
  }

  /** Sets and unsets that all succeed touched no readonly name, and leave none readonly. */
  lemma {:induction false} ApplyUnlocked(v: Vars, changes: seq<EnvChange>, n: Variables.Name)
    requires Apply(v, changes).Some? && Forceful(changes) && (Touches(changes, n) || !Locked(v, n))
    ensures !Locked(v, n) && !Locked(Apply(v, changes).value, n)
    decreases |changes|
  {
    if changes != [] {
      var c, w := changes[0], ApplyOne(v, changes[0]).value;
      assert c in changes;
      assert forall d :: d in changes[1..] ==> d in changes;
      if c.name == n {
        assert !Locked(v, n) && !Locked(w, n);
      } else {
        ApplyOneFrame(v, c, n);
        assert changes == [c] + changes[1..];
      }
      ApplyUnlocked(w, changes[1..], n);
    }
  }

  // Capturing and restoring.

  function PrevOf(v: Vars, n: Variables.Name): PrevVar {
    match At(v, n)
    case None => PrevVar.Unset(n)
    case Some(b) => if b.value.Some? then Restore(n, b.value.value, b.exported) else Unassigned(n, b.exported)
  }

  function DiffNames(d: Diff): seq<Variables.Name> {
    seq(|d.set_|, i requires 0 <= i < |d.set_| => d.set_[i].name) + d.unset
  }

  function CaptureNames(names: seq<Variables.Name>, v: Vars): seq<PrevVar> {
    if names == [] then [] else [PrevOf(v, names[0])] + CaptureNames(names[1..], v)
  }

  function CapturePrev(d: Diff, v: Vars): seq<PrevVar> {
    CaptureNames(DiffNames(d), v)
  }

  function RestoreOne(p: PrevVar): seq<EnvChange> {
    match p
    case Restore(name, value, exported) =>
      if exported then [SetTo(name, value)] else [SetTo(name, value), Unexport(name)]
    case Unset(name) => [UnsetIt(name)]
    case Unassigned(name, exported) => [UnsetIt(name), Declare(name, exported)]
  }

  /** The changes `apply_restore` pushes. */
  function RestoreChanges(prev: seq<PrevVar>): seq<EnvChange> {
    if prev == [] then [] else RestoreOne(prev[0]) + RestoreChanges(prev[1..])
  }

  /** The binding an entry of the restore list stands for. */
  function BindingOf(p: PrevVar): Option<Binding> {
    match p
    case Restore(_, value, exported) => Some(Binding(Some(value), exported, false))
    case Unassigned(_, exported) => Some(Binding(None, exported, false))
    case Unset(_) => None
  }

  function PutAll(v: Vars, prev: seq<PrevVar>): Vars
    decreases |prev|
  {
    if prev == [] then v else PutAll(Put(v, prev[0].name, BindingOf(prev[0])), prev[1..])
  }

  predicate AnyLocked(v: Vars, prev: seq<PrevVar>) {
    exists p :: p in prev && Locked(v, p.name)
  }

  lemma {:induction false} ApplyShort(v: Vars, changes: seq<EnvChange>)
    requires 1 <= |changes| <= 2
    ensures var first := ApplyOne(v, changes[0]);
            Apply(v, changes) == if first.Some? && |changes| == 2 then ApplyOne(first.value, changes[1]) else first
  {
    var rest := changes[1..];
    var first := ApplyOne(v, changes[0]);
    if first.Some? && |changes| == 2 {
      assert rest[0] == changes[1] && rest[1..] == [];
      assert Apply(first.value, rest) == ApplyOne(first.value, changes[1]);
    } else if |changes| == 1 {
      assert rest == [];
    }
  }

  lemma {:induction false} RestoreOneIs(v: Vars, p: PrevVar)
    ensures Apply(v, RestoreOne(p)) == if Locked(v, p.name) then None else Some(Put(v, p.name, BindingOf(p)))
  {
    var changes := RestoreOne(p);
    ApplyShort(v, changes);
    var first := ApplyOne(v, changes[0]);
    if first.Some? {
      var last := if |changes| == 2 then ApplyOne(first.value, changes[1]) else first;
      assert last.value == Put(v, p.name, BindingOf(p));
    }
  }

  /** Restoring fails exactly when some listed name is readonly; otherwise it puts back the
      binding of every entry. */
  lemma {:induction false} RestoreIs(v: Vars, prev: seq<PrevVar>)
    ensures Apply(v, RestoreChanges(prev)) == if AnyLocked(v, prev) then None else Some(PutAll(v, prev))
    decreases |prev|
  {
    if prev != [] {
      var p := prev[0];
      assert p in prev && prev == [p] + prev[1..];
      ApplyConcat(v, RestoreOne(p), RestoreChanges(prev[1..]));
      RestoreOneIs(v, p);
      if !Locked(v, p.name) {
        var w := Put(v, p.name, BindingOf(p));
        RestoreIs(w, prev[1..]);
        LockedAfterPut(v, p, prev);
      }
    }
  }

  lemma {:induction false} LockedAfterPut(v: Vars, p: PrevVar, prev: seq<PrevVar>)
    requires prev != [] && prev[0] == p && !Locked(v, p.name)
    ensures AnyLocked(Put(v, p.name, BindingOf(p)), prev[1..]) <==> AnyLocked(v, prev)
  {
    var w := Put(v, p.name, BindingOf(p));
    assert !Locked(w, p.name);
    assert forall n :: n != p.name ==> At(w, n) == At(v, n);
    assert forall n :: Locked(w, n) <==> At(w, n).Some? && At(w, n).value.readonly;
    assert forall n :: Locked(v, n) <==> At(v, n).Some? && At(v, n).value.readonly;
    assert prev == [p] + prev[1..];
    if AnyLocked(v, prev) {
      var q :| q in prev && Locked(v, q.name);
      assert q in prev[1..] && Locked(w, q.name);
    }
  }

  predicate Lists(prev: seq<PrevVar>, n: Variables.Name) {
    exists p :: p in prev && p.name == n
  }

  lemma {:induction false} PutAllFrame(v: Vars, prev: seq<PrevVar>, n: Variables.Name)
    requires !Lists(prev, n)
    ensures At(PutAll(v, prev), n) == At(v, n)
    decreases |prev|
  {
    if prev != [] {
      assert prev[0] in prev && forall p :: p in prev[1..] ==> p in prev;
      PutAllFrame(Put(v, prev[0].name, BindingOf(prev[0])), prev[1..], n);
    }
  }

  /** What a restore puts back at a listed name does not depend on the store. */
  lemma {:induction false} PutAllListed(v: Vars, w: Vars, prev: seq<PrevVar>, n: Variables.Name)
    requires Lists(prev, n) || At(v, n) == At(w, n)
    ensures At(PutAll(v, prev), n) == At(PutAll(w, prev), n)
    decreases |prev|
  {
    if prev != [] {
      var p := prev[0];
      assert prev == [p] + prev[1..];
      PutAllListed(Put(v, p.name, BindingOf(p)), Put(w, p.name, BindingOf(p)), prev[1..], n);
    }
  }

  lemma {:induction false} CaptureLists(names: seq<Variables.Name>, v: Vars, n: Variables.Name)
    ensures Lists(CaptureNames(names, v), n) <==> n in names
  {
    if names != [] {
      CaptureLists(names[1..], v, n);
      var first := PrevOf(v, names[0]);
      assert CaptureNames(names, v) == [first] + CaptureNames(names[1..], v);
      assert first in CaptureNames(names, v) && first.name == names[0];
    }
  }

  /** Putting back what was captured from `w` gives `w`'s binding, whatever the store holds. */
  lemma {:induction false} CaptureIsPutBack(v: Vars, names: seq<Variables.Name>, w: Vars, n: Variables.Name)
    requires !Locked(w, n)
    ensures At(PutAll(v, CaptureNames(names, w)), n) == if n in names then At(w, n) else At(v, n)
    decreases |names|
  {
    if names != [] {
      var prev := CaptureNames(names, w);
      assert prev[1..] == CaptureNames(names[1..], w);
      CaptureIsPutBack(Put(v, names[0], BindingOf(prev[0])), names[1..], w, n);
      if n == names[0] {
        assert BindingOf(PrevOf(w, n)) == At(w, n);
      }
    }
  }
}
