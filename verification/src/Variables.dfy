/** The shell's variable store, as a map from names to bindings, one name at a time. */
module Variables {
  import opened Text
  import opened Bytes

  type Name = Bytes

  /** A declared variable may have no value. */
  datatype Binding = Binding(value: Option<Bytes>, exported: bool, readonly: bool)

  type Vars = map<Name, Binding>

  function At(v: Vars, n: Name): Option<Binding> {
    if n in v then Some(v[n]) else None
  }

  function Put(v: Vars, n: Name, b: Option<Binding>): (w: Vars)
    ensures At(w, n) == b
    ensures forall m :: m != n ==> At(w, m) == At(v, m)
  {
    match b
    case Some(binding) => v[n := binding]
    case None => v - {n}
  }

  predicate Locked(v: Vars, n: Name) {
    n in v && v[n].readonly
  }

  /** `set_bytes`: refuses a readonly variable and keeps the other flags. */
  function SetValue(v: Vars, n: Name, value: Bytes): Option<Vars> {
    if Locked(v, n) then None
    else Some(v[n := Binding(Some(value), n in v && v[n].exported, false)])
  }

  function UnsetName(v: Vars, n: Name): Option<Vars> {
    if Locked(v, n) then None else Some(v - {n})
  }

  function ExportName(v: Vars, n: Name): Vars {
    if n in v then v[n := v[n].(exported := true)] else v[n := Binding(None, true, false)]
  }

  function UnexportName(v: Vars, n: Name): Vars {
    if n in v then v[n := v[n].(exported := false)] else v
  }

  function DeclareName(v: Vars, n: Name): Vars {
    if n in v then v else v[n := Binding(None, false, false)]
  }

  /** The environment of a child process: exported variables that have a value. */
  function Environment(v: Vars): map<Name, Bytes> {
    map n | n in v && v[n].exported && v[n].value.Some? :: v[n].value.value
  }

  /** Setting a value keeps the export flag, and only a readonly variable refuses. */
  lemma {:induction false} SetKeepsExport(v: Vars, n: Name, value: Bytes)
    ensures SetValue(v, n, value).None? <==> Locked(v, n)
    ensures !Locked(v, n) ==>
              At(SetValue(v, n, value).value, n)
              == Some(if n in v then v[n].(value := Some(value)) else Binding(Some(value), false, false))
    ensures UnsetName(v, n).None? <==> Locked(v, n)
  {
  }
}
