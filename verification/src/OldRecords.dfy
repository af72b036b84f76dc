/** The two older formats of the active record, which `parse_active` still reads: what a
    writer of them stores is read back. They know exported values and unset names only. */
module OldRecords {
  import opened Text
  import opened Bytes
  import opened ActiveRecord

  /** A newline as `\n` and a backslash doubled. */
  function Escape(s: Bytes): Bytes {
    if s == [] then []
    else (if s[0] == NEWLINE then [BACKSLASH, 110] else if s[0] == BACKSLASH then [BACKSLASH, BACKSLASH] else [s[0]])
         + Escape(s[1..])
  }

  lemma {:induction false} UnescapeEscape(s: Bytes)
    ensures UnescapeNewlines(Escape(s)) == s
  {
    if s != [] {
      var e, rest := Escape(s), Escape(s[1..]);
      UnescapeEscape(s[1..]);
      if s[0] == NEWLINE || s[0] == BACKSLASH {
        assert e[2..] == rest;
      } else {
        assert e[1..] == rest;
      }
      assert s == [s[0]] + s[1..];
    }
  }

  lemma {:induction false} EscapedBytes(s: Bytes)
    ensures NEWLINE !in Escape(s)
    ensures EQUALS !in s ==> EQUALS !in Escape(s)
    ensures s != [] ==> Escape(s) != []
  {
    if s != [] {
      EscapedBytes(s[1..]);
    }
  }

  predicate Old(p: PrevVar) {
    PrevOk(p) && ((p.Restore? && p.exported) || p.Unset?)
  }

  /** A line of either format; only the first escapes names. */
  function OldLine(p: PrevVar, encodedKeys: bool): Bytes {
    var key := if encodedKeys then Escape(p.name) else p.name;
    if p.Restore? then key + [EQUALS] + Escape(p.value) else key
  }

  lemma {:induction false} OldLineIsRead(p: PrevVar, encodedKeys: bool)
    requires Old(p)
    ensures ParseVar(OldLine(p, encodedKeys), encodedKeys) == Some(p)
  {
    var key := if encodedKeys then Escape(p.name) else p.name;
    var line := OldLine(p, encodedKeys);
    EscapedBytes(p.name);
    UnescapeEscape(p.name);
    if p.Restore? {
      FindInJoin(key, EQUALS, Escape(p.value));
      assert line[..|key|] == key && line[|key| + 1..] == Escape(p.value);
      UnescapeEscape(p.value);
    } else {
      assert Find(line, EQUALS) == |line|;
      assert line[..|line|] == key;
    }
  }

  function OldLines(prev: seq<PrevVar>, encodedKeys: bool): seq<Bytes> {
    if prev == [] then [] else [OldLine(prev[0], encodedKeys)] + OldLines(prev[1..], encodedKeys)
  }

  lemma {:induction false} ReadMore(line: Bytes, lines: seq<Bytes>, encodedKeys: bool)
    requires ParseVar(line, encodedKeys).Some? && ParseVars(lines, encodedKeys).Some?
    ensures ParseVars([line] + lines, encodedKeys)
            == Some([ParseVar(line, encodedKeys).value] + ParseVars(lines, encodedKeys).value)
  {
    assert ([line] + lines)[1..] == lines;
  }

  lemma {:induction false} OldLinesAreRead(prev: seq<PrevVar>, encodedKeys: bool)
    requires forall p :: p in prev ==> Old(p)
    ensures ParseVars(OldLines(prev, encodedKeys), encodedKeys) == Some(prev)
  {
    if prev != [] {
      assert prev[0] in prev && forall p :: p in prev[1..] ==> p in prev;
      OldLineIsRead(prev[0], encodedKeys);
      OldLinesAreRead(prev[1..], encodedKeys);
      ReadMore(OldLine(prev[0], encodedKeys), OldLines(prev[1..], encodedKeys), encodedKeys);
      assert prev == [prev[0]] + prev[1..];
    }
  }

  predicate OneLine(line: Bytes) {
    NEWLINE !in line
  }

  lemma {:induction false} OldLinesAreLines(prev: seq<PrevVar>, encodedKeys: bool)
    requires !encodedKeys ==> forall p :: p in prev ==> NEWLINE !in p.name
    ensures forall i :: 0 <= i < |OldLines(prev, encodedKeys)| ==> OneLine(OldLines(prev, encodedKeys)[i])
  {
    if prev != [] {
      assert prev[0] in prev && forall p :: p in prev[1..] ==> p in prev;
      OldLinesAreLines(prev[1..], encodedKeys);
      EscapedBytes(prev[0].name);
      if prev[0].Restore? {
        EscapedBytes(prev[0].value);
      }
    }
  }

  /** Version 1: the path in hexadecimal, names and values escaped. */
  lemma {:induction false} VersionOneIsRead(s: ActiveState)
    requires DirOk(s.dir) && s.envrcMtime < U64 && s.dotenvMtime < U64 && forall p :: p in s.prev ==> Old(p)
    ensures ParseActive(Unlines([HEADER_1, Hex(s.dir), Mtimes(s)] + OldLines(s.prev, true))) == Some(s)
  {
    var lines := [HEADER_1, Hex(s.dir), Mtimes(s)] + OldLines(s.prev, true);
    VersionOneLines(s);
    MtimesRoundTrip(s);
    HexRoundTrip(s.dir);
    OldLinesAreRead(s.prev, true);
    assert lines[3..] == OldLines(s.prev, true);
    assert HEADER[12] != HEADER_1[12];
    assert ParseActive(Unlines(lines)) == Assemble(s.dir, ParseMtimes(lines[2]), ParseVars(lines[3..], true));
  }

  lemma {:induction false} VersionOneLines(s: ActiveState)
    requires s.envrcMtime < U64 && s.dotenvMtime < U64
    ensures var lines := [HEADER_1, Hex(s.dir), Mtimes(s)] + OldLines(s.prev, true);
            Lines(Unlines(lines)) == lines && MAGIC <= Unlines(lines)
  {
    var lines := [HEADER_1, Hex(s.dir), Mtimes(s)] + OldLines(s.prev, true);
    HexHasNoSeparator(s.dir);
    MtimesRoundTrip(s);
    OldLinesAreLines(s.prev, true);
    forall i | 0 <= i < |lines|
      ensures NEWLINE !in lines[i]
    {
      assert i >= 3 ==> OneLine(OldLines(s.prev, true)[i - 3]);
    }
    LinesOfUnlines(lines);
    StartsWithFirstLine(lines);
    assert MAGIC <= HEADER_1;
  }

  lemma {:induction false} StartsWithFirstLine(lines: seq<Bytes>)
    requires lines != []
    ensures lines[0] <= Unlines(lines)
  {
    assert Unlines(lines)[..|lines[0]|] == lines[0];
  }

  // Before the header.

  /** A line that `str::lines` leaves whole. */
  predicate WholeLine(line: Bytes) {
    NEWLINE !in line && (line == [] || line[|line| - 1] != RETURN)
  }

  lemma {:induction false} LegacyLinesOfUnlines(lines: seq<Bytes>)
    requires forall i :: 0 <= i < |lines| ==> WholeLine(lines[i])
    ensures LegacyLines(Unlines(lines)) == lines
  {
    if lines != [] {
      var rest := Unlines(lines[1..]);
      LegacyLinesOfUnlines(lines[1..]);
      assert WholeLine(lines[0]);
      FindInJoin(lines[0], NEWLINE, rest);
      var s := lines[0] + [NEWLINE] + rest;
      assert s[..|lines[0]|] == lines[0] && s[|lines[0]| + 1..] == rest;
    }
  }

  /** A carriage return before the newline belongs to the line's end. */
  lemma {:induction false} CarriageReturnIsDropped(line: Bytes, rest: Bytes)
    requires NEWLINE !in line
    ensures LegacyLines(line + [RETURN] + [NEWLINE] + rest) == [line] + LegacyLines(rest)
  {
    var s := line + [RETURN] + [NEWLINE] + rest;
    FindInJoin(line + [RETURN], NEWLINE, rest);
    assert s[..|line|] == line && s[|line| + 2..] == rest && s[|line|] == RETURN;
  }

  /** Without a header: the path and names as they are, values escaped. */
  lemma {:induction false} LegacyIsRead(s: ActiveState)
    requires DirOk(s.dir) && s.envrcMtime < U64 && s.dotenvMtime < U64 && forall p :: p in s.prev ==> Old(p)
    requires WholeLine(s.dir) && forall i :: 0 <= i < |OldLines(s.prev, false)| ==> WholeLine(OldLines(s.prev, false)[i])
    ensures ParseActive(Unlines([s.dir, Mtimes(s)] + OldLines(s.prev, false))) == Some(s)
  {
    var lines := [s.dir, Mtimes(s)] + OldLines(s.prev, false);
    MtimesRoundTrip(s);
    MtimesEndInDigit(s);
    LegacyLinesOfUnlines(lines);
    OldLinesAreRead(s.prev, false);
    assert lines[2..] == OldLines(s.prev, false);
    StartsWithFirstLine(lines);
    assert Unlines(lines)[0] == s.dir[0] == SLASH;
    assert MAGIC[0] != SLASH;
  }

  lemma {:induction false} MtimesEndInDigit(s: ActiveState)
    ensures Mtimes(s) != [] && IsDigit(Mtimes(s)[|Mtimes(s)| - 1])
  {
    var d := Decimal(s.dotenvMtime);
    DecimalIsPlain(s.dotenvMtime);
    assert d[|d| - 1] in d;
  }
}
