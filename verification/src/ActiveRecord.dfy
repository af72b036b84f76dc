/** The active record of denv: the directory, timestamps and earlier bindings of the loaded
    environment layer, as `save_active` writes them and `parse_active` reads them back. */
module ActiveRecord {
  import opened Text
  import opened Bytes

  type Name = Bytes

  datatype PrevVar =
    | Restore(name: Name, value: Bytes, exported: bool)
    | Unassigned(name: Name, exported: bool)
    | Unset(name: Name)

  datatype ActiveState = ActiveState(dir: Bytes, envrcMtime: nat, dotenvMtime: nat, prev: seq<PrevVar>)

  // "DENV-ACTIVE ", then the version.
  const MAGIC: Bytes := [68, 69, 78, 86, 45, 65, 67, 84, 73, 86, 69, 32]
  const HEADER: Bytes := MAGIC + [50]
  const HEADER_1: Bytes := MAGIC + [49]

  // Kind letters of a binding line.
  const KIND_EXPORTED: Bytes := [69]
  const KIND_LOCAL: Bytes := [76]
  const KIND_EXPORTED_UNASSIGNED: Bytes := [88]
  const KIND_LOCAL_UNASSIGNED: Bytes := [78]
  const KIND_UNSET: Bytes := [85]

  // What `save_active` accepts.

  predicate DirOk(dir: Bytes) {
    dir != [] && dir[0] == SLASH && 0 !in dir
  }

  predicate NameOk(name: Name) {
    name != [] && EQUALS !in name && 0 !in name
  }

  predicate PrevOk(p: PrevVar) {
    NameOk(p.name) && (p.Restore? ==> 0 !in p.value)
  }

  predicate Storable(s: ActiveState) {
    DirOk(s.dir) && forall i :: 0 <= i < |s.prev| ==> PrevOk(s.prev[i])
  }

  /** Byte by byte: an absolute path, names without `=` and not empty, and no zero byte. */
  lemma {:induction false} StorableIs(s: ActiveState)
    ensures Storable(s) <==>
              && |s.dir| > 0 && s.dir[0] == 0x2f && (forall b :: b in s.dir ==> b != 0)
              && forall p :: p in s.prev ==>
                   && |p.name| > 0 && (forall b :: b in p.name ==> b != 0 && b != 0x3d)
                   && (p.Restore? ==> forall b :: b in p.value ==> b != 0)
  {
    if Storable(s) {
      assert forall p :: p in s.prev ==> PrevOk(p);
    }
  }

  /** What the types of the fields guarantee: `u64` timestamps and names that are UTF-8. */
  predicate WellTyped(s: ActiveState) {
    s.envrcMtime < U64 && s.dotenvMtime < U64 && forall i :: 0 <= i < |s.prev| ==> Utf8(s.prev[i].name)
  }

  // Writing.

  function BindingLine(p: PrevVar): Bytes {
    match p
    case Restore(name, value, exported) =>
      (if exported then KIND_EXPORTED else KIND_LOCAL) + [SPACE] + (Hex(name) + [SPACE] + Hex(value))
    case Unassigned(name, exported) =>
      (if exported then KIND_EXPORTED_UNASSIGNED else KIND_LOCAL_UNASSIGNED) + [SPACE] + Hex(name)
    case Unset(name) => KIND_UNSET + [SPACE] + Hex(name)
  }

  function Mtimes(s: ActiveState): Bytes {
    Decimal(s.envrcMtime) + [SPACE] + Decimal(s.dotenvMtime)
  }

  function BindingLines(prev: seq<PrevVar>): seq<Bytes> {
    seq(|prev|, i requires 0 <= i < |prev| => BindingLine(prev[i]))
  }

  function Render(s: ActiveState): Bytes {
    Unlines([HEADER, Hex(s.dir), Mtimes(s)] + BindingLines(s.prev))
  }

  /** The buffer `save_active` fills. */
  method WriteRecord(s: ActiveState) returns (buf: Bytes)
    ensures buf == Render(s)
  {
    ghost var head := [HEADER, Hex(s.dir), Mtimes(s)];
    buf := HEADER + [NEWLINE];
    buf := buf + Hex(s.dir) + [NEWLINE];
    buf := buf + Decimal(s.envrcMtime) + [SPACE] + Decimal(s.dotenvMtime) + [NEWLINE];
    WrittenHead(s);
    var i := 0;
    while i < |s.prev|
      invariant 0 <= i <= |s.prev|
      invariant buf == Unlines(head + BindingLines(s.prev[..i]))
    {
      var previous := s.prev[i];
      UnlinesOfMore(head + BindingLines(s.prev[..i]), BindingLine(previous));
      assert head + BindingLines(s.prev[..i]) + [BindingLine(previous)] == head + BindingLines(s.prev[..i + 1]);
      buf := PushBinding(buf, previous);
      i := i + 1;
    }
    assert s.prev[..i] == s.prev;
  }

  method PushBinding(buf: Bytes, p: PrevVar) returns (out: Bytes)
    ensures out == buf + BindingLine(p) + [NEWLINE]
  {
    match p {
      case Restore(name, value, exported) =>
        out := buf + (if exported then KIND_EXPORTED else KIND_LOCAL) + [SPACE];
        out := out + Hex(name) + [SPACE] + Hex(value) + [NEWLINE];
      case Unassigned(name, exported) =>
        out := buf + (if exported then KIND_EXPORTED_UNASSIGNED else KIND_LOCAL_UNASSIGNED) + [SPACE];
        out := out + Hex(name) + [NEWLINE];
      case Unset(name) =>
        out := buf + KIND_UNSET + [SPACE] + Hex(name) + [NEWLINE];
    }
  }

  lemma {:induction false} WrittenHead(s: ActiveState)
    ensures Unlines([HEADER, Hex(s.dir), Mtimes(s)] + BindingLines([]))
            == HEADER + [NEWLINE] + Hex(s.dir) + [NEWLINE] + Decimal(s.envrcMtime) + [SPACE] + Decimal(s.dotenvMtime) + [NEWLINE]
  {
    UnlinesOfMore([], HEADER);
    UnlinesOfMore([HEADER], Hex(s.dir));
    UnlinesOfMore([HEADER, Hex(s.dir)], Mtimes(s));
    assert [] + [HEADER] == [HEADER];
    assert [HEADER] + [Hex(s.dir)] == [HEADER, Hex(s.dir)];
    assert [HEADER, Hex(s.dir)] + [Mtimes(s)] == [HEADER, Hex(s.dir), Mtimes(s)] + BindingLines([]);
  }

  // Reading.

  function ParseBinding(line: Bytes): Option<PrevVar> {
    match SplitOnce(line, SPACE)
    case None => None
    case Some((kind, rest)) =>
      if kind == KIND_UNSET || kind == KIND_EXPORTED_UNASSIGNED || kind == KIND_LOCAL_UNASSIGNED then
        match ParseName(rest) {
          case None => None
          case Some(name) =>
            if kind == KIND_UNSET then Some(Unset(name)) else Some(Unassigned(name, kind == KIND_EXPORTED_UNASSIGNED))
        }
      else
        match SplitOnce(rest, SPACE) {
          case None => None
          case Some((hexName, hexValue)) => ParseRestore(kind, ParseName(hexName), DecodeHex(hexValue))
        }
  }

  function ParseName(hex: Bytes): Option<Name> {
    match DecodeHex(hex)
    case None => None
    case Some(name) => if Utf8(name) && NameOk(name) then Some(name) else None
  }

  function ParseRestore(kind: Bytes, name: Option<Name>, value: Option<Bytes>): Option<PrevVar> {
    if (kind == KIND_EXPORTED || kind == KIND_LOCAL) && name.Some? && value.Some? && 0 !in value.value
    then Some(Restore(name.value, value.value, kind == KIND_EXPORTED))
    else None
  }

  function ParseBindings(lines: seq<Bytes>): Option<seq<PrevVar>> {
    if lines == [] then Some([])
    else
      match (ParseBinding(lines[0]), ParseBindings(lines[1..])) {
        case (Some(first), Some(rest)) => Some([first] + rest)
        case _ => None
      }
  }

  function ParseMtimes(line: Bytes): Option<(nat, nat)> {
    match SplitOnce(line, SPACE)
    case None => None
    case Some((left, right)) =>
      if left == [] || right == [] || SPACE in right then None
      else
        match (ParseU64(left), ParseU64(right)) {
          case (Some(envrc), Some(dotenv)) => Some((envrc, dotenv))
          case _ => None
        }
  }

  // The two older formats, which are still read.

  function UnescapeNewlines(s: Bytes): Bytes {
    if s == [] then []
    else if s[0] != BACKSLASH then [s[0]] + UnescapeNewlines(s[1..])
    else if |s| == 1 then [BACKSLASH]
    else if s[1] == 110 then [NEWLINE] + UnescapeNewlines(s[2..])
    else if s[1] == BACKSLASH then [BACKSLASH] + UnescapeNewlines(s[2..])
    else [BACKSLASH, s[1]] + UnescapeNewlines(s[2..])
  }

  function ParseVar(line: Bytes, encodedKeys: bool): Option<PrevVar> {
    var i := Find(line, EQUALS);
    var key := if encodedKeys then UnescapeNewlines(line[..i]) else line[..i];
    if line == [] || !NameOk(key) then None
    else if i == |line| then Some(Unset(key))
    else
      var value := UnescapeNewlines(line[i + 1..]);
      if 0 in value then None else Some(Restore(key, value, true))
  }

  function ParseVars(lines: seq<Bytes>, encodedKeys: bool): Option<seq<PrevVar>> {
    if lines == [] then Some([])
    else
      match (ParseVar(lines[0], encodedKeys), ParseVars(lines[1..], encodedKeys)) {
        case (Some(first), Some(rest)) => Some([first] + rest)
        case _ => None
      }
  }

  /** `str::lines`: also drops a carriage return before the newline. */
  function LegacyLines(s: Bytes): seq<Bytes>
    decreases |s|
  {
    if s == [] then []
    else
      var i := Find(s, NEWLINE);
      if i == |s| then [s]
      else [if i > 0 && s[i - 1] == RETURN then s[..i - 1] else s[..i]] + LegacyLines(s[i + 1..])
  }

  function Assemble(dir: Bytes, mtimes: Option<(nat, nat)>, prev: Option<seq<PrevVar>>): Option<ActiveState> {
    if DirOk(dir) && mtimes.Some? && prev.Some?
    then Some(ActiveState(dir, mtimes.value.0, mtimes.value.1, prev.value))
    else None
  }

  function ParseLegacy(content: Bytes): Option<ActiveState> {
    var lines := LegacyLines(content);
    if |lines| < 2 then None
    else Assemble(lines[0], ParseMtimes(lines[1]), ParseVars(lines[2..], false))
  }

  /** `parse_active`; every error is `None`. */
  function ParseActive(content: Bytes): Option<ActiveState> {
    if !(MAGIC <= content) then ParseLegacy(content)
    else
      var lines := Lines(content);
      if |lines| < 3 || (lines[0] != HEADER && lines[0] != HEADER_1) then None
      else
        match DecodeHex(lines[1]) {
          case None => None
          case Some(dir) =>
            Assemble(dir, ParseMtimes(lines[2]),
                     if lines[0] == HEADER then ParseBindings(lines[3..]) else ParseVars(lines[3..], true))
        }
  }

  // The record read back.

  lemma {:induction false} KindIsOneLetter(kind: Bytes, rest: Bytes)
    requires |kind| == 1 && SPACE !in kind
    ensures SplitOnce(kind + [SPACE] + rest, SPACE) == Some((kind, rest))
  {
    SplitJoin(kind, SPACE, rest);
  }

  lemma {:induction false} HexHasNoSeparator(s: Bytes)
    ensures SPACE !in Hex(s) && NEWLINE !in Hex(s)
  {
    HexIsPlain(s);
  }

  lemma {:induction false} NameRoundTrip(name: Name)
    requires NameOk(name) && Utf8(name)
    ensures ParseName(Hex(name)) == Some(name)
  {
    HexRoundTrip(name);
  }

  lemma {:induction false} RestoreRoundTrip(name: Name, value: Bytes, exported: bool)
    requires NameOk(name) && Utf8(name) && 0 !in value
    ensures ParseBinding(BindingLine(Restore(name, value, exported))) == Some(Restore(name, value, exported))
  {
    var kind := if exported then KIND_EXPORTED else KIND_LOCAL;
    var rest := Hex(name) + [SPACE] + Hex(value);
    KindIsOneLetter(kind, rest);
    HexHasNoSeparator(name);
    SplitJoin(Hex(name), SPACE, Hex(value));
    NameRoundTrip(name);
    HexRoundTrip(value);
    assert ParseBinding(kind + [SPACE] + rest) == ParseRestore(kind, Some(name), Some(value));
  }

  lemma {:induction false} BindingRoundTrip(p: PrevVar)
    requires PrevOk(p) && Utf8(p.name)
    ensures ParseBinding(BindingLine(p)) == Some(p)
  {
    match p {
      case Restore(name, value, exported) =>
        RestoreRoundTrip(name, value, exported);
      case Unassigned(name, exported) =>
        NameRoundTrip(name);
        KindIsOneLetter(if exported then KIND_EXPORTED_UNASSIGNED else KIND_LOCAL_UNASSIGNED, Hex(name));
      case Unset(name) =>
        NameRoundTrip(name);
        KindIsOneLetter(KIND_UNSET, Hex(name));
    }
  }

  lemma {:induction false} BindingsRoundTrip(prev: seq<PrevVar>)
    requires forall i :: 0 <= i < |prev| ==> PrevOk(prev[i])
    requires forall i :: 0 <= i < |prev| ==> Utf8(prev[i].name)
    ensures ParseBindings(BindingLines(prev)) == Some(prev)
  {
    if prev != [] {
      BindingRoundTrip(prev[0]);
      BindingsRoundTrip(prev[1..]);
      BindingLinesTail(prev);
      assert prev == [prev[0]] + prev[1..];
    }
  }

  lemma {:induction false} BindingLinesTail(prev: seq<PrevVar>)
    requires prev != []
    ensures BindingLines(prev)[0] == BindingLine(prev[0])
    ensures BindingLines(prev)[1..] == BindingLines(prev[1..])
  {
    var lines := BindingLines(prev);
    assert forall i :: 0 <= i < |prev| - 1 ==> lines[1..][i] == BindingLine(prev[1..][i]);
  }

  lemma {:induction false} MtimesRoundTrip(s: ActiveState)
    requires s.envrcMtime < U64 && s.dotenvMtime < U64
    ensures ParseMtimes(Mtimes(s)) == Some((s.envrcMtime, s.dotenvMtime)) && NEWLINE !in Mtimes(s)
  {
    DecimalIsPlain(s.envrcMtime);
    DecimalIsPlain(s.dotenvMtime);
    DecimalRoundTrip(s.envrcMtime);
    DecimalRoundTrip(s.dotenvMtime);
    SplitJoin(Decimal(s.envrcMtime), SPACE, Decimal(s.dotenvMtime));
  }

  lemma {:induction false} BindingLineIsOneLine(p: PrevVar)
    ensures NEWLINE !in BindingLine(p)
  {
    HexHasNoSeparator(p.name);
    if p.Restore? {
      HexHasNoSeparator(p.value);
    }
  }

  lemma {:induction false} RenderedLines(s: ActiveState)
    requires WellTyped(s)
    ensures Lines(Render(s)) == [HEADER, Hex(s.dir), Mtimes(s)] + BindingLines(s.prev)
  {
    var lines := [HEADER, Hex(s.dir), Mtimes(s)] + BindingLines(s.prev);
    forall i | 0 <= i < |lines|
      ensures NEWLINE !in lines[i]
    {
      HexHasNoSeparator(s.dir);
      MtimesRoundTrip(s);
      if i >= 3 {
        BindingLineIsOneLine(s.prev[i - 3]);
      }
    }
    LinesOfUnlines(lines);
  }

  lemma {:induction false} RenderStartsWithMagic(s: ActiveState)
    ensures MAGIC <= Render(s)
  {
    var lines := [HEADER, Hex(s.dir), Mtimes(s)] + BindingLines(s.prev);
    assert lines[0] == HEADER;
    var rest := Unlines(lines[1..]);
    assert Render(s) == HEADER + [NEWLINE] + rest;
    assert Render(s)[..|MAGIC|] == MAGIC;
  }

  /** Every state that `save_active` accepts is read back unchanged from what it wrote. */
  lemma {:induction false} RecordRoundTrip(s: ActiveState)
    requires WellTyped(s) && Storable(s)
    ensures ParseActive(Render(s)) == Some(s)
  {
    RenderedLines(s);
    RenderStartsWithMagic(s);
    HexRoundTrip(s.dir);
    MtimesRoundTrip(s);
    BindingsRoundTrip(s.prev);
    var lines := [HEADER, Hex(s.dir), Mtimes(s)] + BindingLines(s.prev);
    assert lines[3..] == BindingLines(s.prev);
  }

  /** The writing side is UTF-8, which the loader demands before parsing. */
  lemma {:induction false} RenderIsUtf8(s: ActiveState)
    ensures Utf8(Render(s))
  {
    RenderIsAscii([HEADER, Hex(s.dir), Mtimes(s)] + BindingLines(s.prev)) by {
      HexIsPlain(s.dir);
      DecimalIsPlain(s.envrcMtime);
      DecimalIsPlain(s.dotenvMtime);
      forall i | 0 <= i < |s.prev|
        ensures Ascii(BindingLines(s.prev)[i])
      {
        BindingLineIsAscii(s.prev[i]);
      }
    }
    AsciiIsUtf8(Render(s));
  }

  lemma {:induction false} BindingLineIsAscii(p: PrevVar)
    ensures Ascii(BindingLine(p))
  {
    HexIsPlain(p.name);
    if p.Restore? {
      HexIsPlain(p.value);
    }
  }

  lemma {:induction false} RenderIsAscii(lines: seq<Bytes>)
    requires forall i :: 0 <= i < |lines| ==> Ascii(lines[i])
    ensures Ascii(Unlines(lines))
  {
    if lines != [] {
      RenderIsAscii(lines[1..]);
    }
  }

  // Nothing invalid is ever read.

  lemma {:induction false} BindingsAreOk(lines: seq<Bytes>)
    requires ParseBindings(lines).Some?
    ensures forall p :: p in ParseBindings(lines).value ==> PrevOk(p) && Utf8(p.name)
  {
    if lines != [] {
      BindingsAreOk(lines[1..]);
    }
  }

  lemma {:induction false} VarsAreOk(lines: seq<Bytes>, encodedKeys: bool)
    requires ParseVars(lines, encodedKeys).Some?
    ensures forall p :: p in ParseVars(lines, encodedKeys).value ==> PrevOk(p)
  {
    if lines != [] {
      VarsAreOk(lines[1..], encodedKeys);
    }
  }

  /** Whatever text is parsed, in any of the three formats, the state is one that could
      have been saved: directory, names, values and timestamps are all in range. */
  lemma {:induction false} ParsedIsStorable(content: Bytes)
    requires ParseActive(content).Some?
    ensures var s := ParseActive(content).value;
            Storable(s) && s.envrcMtime < U64 && s.dotenvMtime < U64
  {
    if MAGIC <= content {
      var lines := Lines(content);
      if lines[0] == HEADER {
        BindingsAreOk(lines[3..]);
      } else {
        VarsAreOk(lines[3..], true);
      }
    } else {
      VarsAreOk(LegacyLines(content)[2..], false);
    }
  }

  /** A version 2 record is stable: saving what was read and reading it again changes nothing. */
  lemma {:induction false} ReadBackIsStable(content: Bytes)
    requires ParseActive(content).Some? && MAGIC <= content && Lines(content)[0] == HEADER
    ensures ParseActive(Render(ParseActive(content).value)) == ParseActive(content)
  {
    ParsedIsStorable(content);
    BindingsAreOk(Lines(content)[3..]);
    RecordRoundTrip(ParseActive(content).value);
  }
}
