/** What the keys do to the query line, as laws between them. */
module LineLaws {
  import opened Text
  import opened HistorySearch
  import Bytes

  type Space = Scalar -> bool

  /** The line after an action. */
  function After(line: Line, action: Action, space: Space): (r: Line)
    requires line.Ok()
    ensures r.Ok()
  {
    Edit(line, action, space).0
  }

  function Before(line: Line): Str
    requires line.Ok()
  {
    line.text[..line.cursor]
  }

  function Behind(line: Line): Str
    requires line.Ok()
  {
    line.text[line.cursor..]
  }

  // Typing and deleting.

  /** Typed or pasted text goes in at the cursor, which moves behind it. */
  lemma {:induction false} PasteInserts(line: Line, s: Str, space: Space)
    requires line.Ok()
    ensures var r := After(line, Paste(s), space);
            Before(r) == Before(line) + s && Behind(r) == Behind(line) && r.kill == line.kill
  {
    var r := After(line, Paste(s), space);
    assert r.text[..r.cursor] == Before(line) + s;
    assert r.text[r.cursor..] == Behind(line);
  }

  /** Two lines with the same parts are the same. */
  lemma {:induction false} SameParts(a: Line, b: Line)
    requires a.Ok() && b.Ok() && Before(a) == Before(b) && Behind(a) == Behind(b) && a.kill == b.kill
    ensures a == b
  {
    assert a.text == Before(a) + Behind(a) && b.text == Before(b) + Behind(b);
    assert |Before(a)| == a.cursor && |Before(b)| == b.cursor;
  }

  /** Pasting is typing one character after the other. */
  lemma {:induction false} PasteIsTyping(line: Line, s: Str, c: Scalar, space: Space)
    requires line.Ok()
    ensures After(line, Paste(s + [c]), space) == After(After(line, Paste(s), space), Type(c), space)
    ensures After(line, Paste([]), space) == line
    ensures After(line, Type(c), space) == After(line, Paste([c]), space)
  {
    var once, part := After(line, Paste(s + [c]), space), After(line, Paste(s), space);
    PasteInserts(line, s + [c], space);
    PasteInserts(line, s, space);
    PasteInserts(part, [c], space);
    PasteInserts(line, [], space);
    assert Before(line) + s + [c] == Before(line) + (s + [c]);
    SameParts(once, After(part, Type(c), space));
    assert Before(line) + [] == Before(line);
    SameParts(After(line, Paste([]), space), line);
  }

  /** Backspace takes back the character just typed, and the line is as it was. */
  lemma {:induction false} BackspaceUndoesTyping(line: Line, c: Scalar, space: Space)
    requires line.Ok()
    ensures After(After(line, Type(c), space), Backspace, space) == line
  {
    var typed := After(line, Type(c), space);
    PasteInserts(line, [c], space);
    var r := After(typed, Backspace, space);
    assert Before(r) == typed.text[..typed.cursor - 1] == Before(line);
    assert Behind(r) == Behind(line);
    SameParts(r, line);
  }

  /** Backspace removes exactly the character before the cursor; at the front it does nothing. */
  lemma {:induction false} BackspaceRemovesOne(line: Line, space: Space)
    requires line.Ok()
    ensures var r := After(line, Backspace, space);
            if line.cursor == 0 then r == line
            else Before(line) == Before(r) + [line.text[line.cursor - 1]] && Behind(r) == Behind(line) && r.kill == line.kill
  {
    var r := After(line, Backspace, space);
    if line.cursor > 0 {
      assert r.text[..r.cursor] == line.text[..line.cursor - 1];
      assert r.text[r.cursor..] == line.text[line.cursor..];
    }
  }

  /** Deleting forward removes exactly the character at the cursor: one step right and back. */
  lemma {:induction false} DeleteIsRightThenBackspace(line: Line, space: Space)
    requires line.Ok()
    ensures if line.cursor == |line.text| then After(line, DeleteForward, space) == line
            else After(line, DeleteForward, space) == After(After(line, Right, space), Backspace, space)
  {
  }

  // Killing and yanking.

  /** What is killed is yanked back; with nothing to kill the line stays as it is. */
  lemma {:induction false} YankUndoesKillToStart(line: Line, space: Space)
    requires line.Ok()
    ensures var killed := After(line, KillToStart, space);
            if line.cursor == 0 then killed == line
            else killed.text == Behind(line) && killed.cursor == 0
                 && After(killed, Yank, space) == line.(kill := Before(line))
  {
    if line.cursor > 0 {
      var killed := After(line, KillToStart, space);
      YankInserts(killed, space);
      SameParts(After(killed, Yank, space), line.(kill := Before(line)));
    }
  }

  lemma {:induction false} YankUndoesKillToEnd(line: Line, space: Space)
    requires line.Ok()
    ensures var killed := After(line, KillToEnd, space);
            if line.cursor == |line.text| then killed == line
            else killed.text == Before(line) && killed.cursor == line.cursor
                 && After(killed, Yank, space) == Line(line.text, |line.text|, Behind(line))
  {
    if line.cursor < |line.text| {
      var killed := After(line, KillToEnd, space);
      YankInserts(killed, space);
      assert Before(line) + Behind(line) == line.text;
      SameParts(After(killed, Yank, space), Line(line.text, |line.text|, Behind(line)));
    }
  }

  lemma {:induction false} YankInserts(line: Line, space: Space)
    requires line.Ok()
    ensures var r := After(line, Yank, space);
            Before(r) == Before(line) + line.kill && Behind(r) == Behind(line) && r.kill == line.kill
  {
    PasteInserts(line, line.kill, space);
    assert line.kill == [] ==> Before(line) + line.kill == Before(line);
  }

  /** The last word before `cursor` starts at `start`: blanks, before them characters that
      are not blank, and before those nothing or a blank. */
  ghost predicate LastWord(text: Str, start: nat, cursor: nat, space: Space) {
    start <= cursor <= |text|
    && (exists mid :: start <= mid <= cursor && AllSpace(text, mid, cursor, space) && NoSpace(text, start, mid, space)
                      && (mid == start ==> start == 0))
    && (start == 0 || space(text[start - 1]))
  }

  ghost predicate AllSpace(text: Str, from: nat, to: nat, space: Space) {
    forall i :: from <= i < to && i < |text| ==> space(text[i])
  }

  ghost predicate NoSpace(text: Str, from: nat, to: nat, space: Space) {
    forall i :: from <= i < to && i < |text| ==> !space(text[i])
  }

  lemma {:induction false} SkipBackStops(text: Str, cursor: nat, skip: Space)
    requires cursor <= |text|
    ensures var r := SkipBack(text, cursor, skip);
            AllSpace(text, r, cursor, skip) && (r == 0 || !skip(text[r - 1]))
  {
    if cursor > 0 && skip(text[cursor - 1]) {
      SkipBackStops(text, cursor - 1, skip);
    }
  }

  lemma {:induction false} SkipForwardStops(text: Str, cursor: nat, skip: Space)
    requires cursor <= |text|
    ensures var r := SkipForward(text, cursor, skip);
            AllSpace(text, cursor, r, skip) && (r == |text| || !skip(text[r]))
    decreases |text| - cursor
  {
    if cursor < |text| && skip(text[cursor]) {
      SkipForwardStops(text, cursor + 1, skip);
    }
  }

  /** Moving a word left goes to the start of the last word. */
  lemma {:induction false} WordLeftFindsTheWord(line: Line, space: Space)
    requires line.Ok()
    ensures LastWord(line.text, After(line, WordLeft, space).cursor, line.cursor, space)
  {
    var mid := SkipBack(line.text, line.cursor, space);
    SkipBackStops(line.text, line.cursor, space);
    var other := (c: Scalar) => !space(c);
    SkipBackStops(line.text, mid, other);
    var start := SkipBack(line.text, mid, other);
    assert AllSpace(line.text, start, mid, other) ==> NoSpace(line.text, start, mid, space);
  }

  /** Killing a word back removes exactly the text a word move left passes over, and yanking
      puts it back. */
  lemma {:induction false} YankUndoesKillWordBack(line: Line, space: Space)
    requires line.Ok()
    ensures var start := After(line, WordLeft, space).cursor;
            var killed := After(line, KillWordBack, space);
            if start == line.cursor then killed == line
            else killed.text == line.text[..start] + Behind(line) && killed.cursor == start
                 && After(killed, Yank, space) == line.(kill := line.text[start..line.cursor])
  {
    var start := After(line, WordLeft, space).cursor;
    if start != line.cursor {
      var killed := After(line, KillWordBack, space);
      YankInserts(killed, space);
      assert line.text[..start] + line.text[start..line.cursor] == Before(line);
      SameParts(After(killed, Yank, space), line.(kill := line.text[start..line.cursor]));
    }
  }

  /** Moving a word right passes the rest of a word, then blanks, as far as they go. */
  lemma {:induction false} WordRightFindsTheNextWord(line: Line, space: Space)
    requires line.Ok()
    ensures var r := After(line, WordRight, space).cursor;
            && line.cursor <= r && (r == |line.text| || !space(line.text[r]))
            && exists mid :: line.cursor <= mid <= r && NoSpace(line.text, line.cursor, mid, space) && AllSpace(line.text, mid, r, space)
                             && (mid == |line.text| || space(line.text[mid]))
  {
    var other := (c: Scalar) => !space(c);
    var mid := SkipForward(line.text, line.cursor, other);
    SkipForwardStops(line.text, line.cursor, other);
    SkipForwardStops(line.text, mid, space);
    assert AllSpace(line.text, line.cursor, mid, other) ==> NoSpace(line.text, line.cursor, mid, space);
  }

  // Moving.

  predicate IsMove(a: Action) {
    a.Left? || a.Right? || a.WordLeft? || a.WordRight? || a.Home? || a.End? || a.SelectUp? || a.SelectDown?
  }

  /** Moves change the cursor only, and only they and the selection keys leave the search. */
  lemma {:induction false} MovesKeepText(line: Line, a: Action, space: Space)
    requires line.Ok()
    ensures IsMove(a) ==> After(line, a, space).text == line.text && After(line, a, space).kill == line.kill
    ensures Edit(line, a, space).1 <==> !IsMove(a)
  {
  }

  /** One step left and one step right undo each other inside the text, and stop at its ends. */
  lemma {:induction false} LeftUndoesRight(line: Line, space: Space)
    requires line.Ok()
    ensures line.cursor < |line.text| ==> After(After(line, Right, space), Left, space) == line
    ensures line.cursor > 0 ==> After(After(line, Left, space), Right, space) == line
    ensures line.cursor < |line.text| ==> After(line, Right, space).cursor > line.cursor
    ensures line.cursor == 0 ==> After(line, Left, space) == line
    ensures line.cursor == |line.text| ==> After(line, Right, space) == line
  {
  }

  lemma {:induction false} HomeAndEnd(line: Line, space: Space)
    requires line.Ok()
    ensures Before(After(line, Home, space)) == [] && Behind(After(line, End, space)) == []
  {
  }

  /** The length the stack of candidate sets compares is that of the UTF-8 encoding. */
  lemma {:induction false} WidthIsUtf8(c: Scalar)
    requires Bytes.IsScalar(c as nat)
    ensures Width(c) == |Bytes.Encode(c as nat)|
  {
    var n := c as nat;
    assert n < 0x80 <==> c < 0x80;
    assert n < 0x800 <==> c < 0x800;
    assert n < 0x1_0000 <==> c < 0x1_0000;
  }
}
