/** Completion quoting: what `preview_completion` inserts, and the tokenizer that
    reads it back (`shell_tokens`, `find_comp_word_start`). */
module Quoting {
  import opened Text

  const QUOTE: char := '\''
  const SPECIAL: set<char> := {' ', '\t', '(', ')', '$', '*', '?', '[', ']', '|', '&', '>', '<', ';', '#', '\\', '"', '`'}

  predicate NeedsQuoting(s: string) {
    exists i :: 0 <= i < |s| && s[i] in SPECIAL
  }

  /** `inner.replace('\'', "'\\''")`: close the quotes, an escaped quote, open again. */
  function Escape(s: string): string {
    if s == "" then "" else (if s[0] == QUOTE then "'\\''" else [s[0]]) + Escape(s[1..])
  }

  predicate IsQuoted(inner: string, inQuote: bool) {
    inQuote || NeedsQuoting(inner) || QUOTE in inner
  }

  /** The text `preview_completion` inserts for the completion `inner`. */
  function Replacement(inner: string, inQuote: bool): string {
    if !IsQuoted(inner, inQuote) then inner
    else
      var escaped := Escape(inner);
      if "~/" <= escaped then "~/'" + escaped[2..] + "'" else "'" + escaped + "'"
  }

  // The tokenizer.

  /** Its state: finished tokens, the current one, and the open quotes. */
  datatype Lexer = Lexer(tokens: seq<string>, cur: string, inSingle: bool, inDouble: bool) {
    function Finish(): seq<string> {
      if cur == "" then tokens else tokens + [cur]
    }
  }

  /** One turn of the loop at `s[i]`: the new state and how many characters it took. */
  function Step(st: Lexer, s: string): (r: (Lexer, nat))
    requires s != ""
    ensures 1 <= r.1 <= |s|
  {
    var c := s[0];
    if c == '\\' && !st.inSingle then
      if |s| > 1 then (st.(cur := st.cur + [s[1]]), 2) else (st.(cur := st.cur + ['\\']), 1)
    else if c == '\'' && !st.inDouble then (st.(inSingle := !st.inSingle), 1)
    else if c == '"' && !st.inSingle then (st.(inDouble := !st.inDouble), 1)
    else if (c == ' ' || c == '\t') && !st.inSingle && !st.inDouble then
      (if st.cur == "" then st else st.(tokens := st.tokens + [st.cur], cur := ""), 1)
    else (st.(cur := st.cur + [c]), 1)
  }

  function Lex(st: Lexer, s: string): Lexer
    decreases |s|
  {
    if s == "" then st
    else
      var (next, n) := Step(st, s);
      Lex(next, s[n..])
  }

  const START := Lexer([], "", false, false)

  function Tokens(s: string): seq<string> {
    Lex(START, s).Finish()
  }

  /** `shell_tokens`. */
  method ShellTokens(s: string) returns (tokens: seq<string>)
    ensures tokens == Tokens(s)
  {
    tokens := [];
    var cur, inSingle, inDouble := "", false, false;
    var i := 0;
    while i < |s|
      invariant 0 <= i <= |s|
      invariant Lex(START, s) == Lex(Lexer(tokens, cur, inSingle, inDouble), s[i..])
    {
      ghost var rest := s[i..];
      var c := s[i];
      i := i + 1;
      if c == '\\' && !inSingle {
        if i < |s| {
          cur := cur + [s[i]];
          i := i + 1;
        } else {
          cur := cur + ['\\'];
        }
      } else if c == '\'' && !inDouble {
        inSingle := !inSingle;
      } else if c == '"' && !inSingle {
        inDouble := !inDouble;
      } else if (c == ' ' || c == '\t') && !inSingle && !inDouble {
        if cur != "" {
          tokens, cur := tokens + [cur], "";
        }
      } else {
        cur := cur + [c];
      }
      assert s[i..] == rest[i - (|s| - |rest|)..];
    }
    if cur != "" {
      tokens := tokens + [cur];
    }
  }

  // Round trip.

  lemma {:induction false} EscapeSplit(s: string, rest: string)
    requires s != ""
    ensures var first := if s[0] == QUOTE then "'\\''" else [s[0]];
            Escape(s) + rest == first + (Escape(s[1..]) + rest) && |Escape(s)| == |first| + |Escape(s[1..])|
  {
  }

  lemma {:induction false} EscapedQuoteParts(tail: string)
    ensures "'\\''" + tail == [QUOTE] + (['\\', QUOTE] + ([QUOTE] + tail))
  {
  }

  /** Reading the escaped text inside single quotes adds the text itself. */
  lemma {:induction false} LexEscaped(st: Lexer, s: string, rest: string)
    requires st.inSingle && !st.inDouble
    ensures Lex(st, Escape(s) + rest) == Lex(st.(cur := st.cur + s), rest)
    decreases |s|
  {
    if s == "" {
      assert Escape(s) + rest == rest && st.cur + s == st.cur;
    } else {
      var tail := Escape(s[1..]) + rest;
      var next := st.(cur := st.cur + [s[0]]);
      assert next.cur + s[1..] == st.cur + s;
      LexEscaped(next, s[1..], rest);
      EscapeSplit(s, rest);
      if s[0] == QUOTE {
        LexEscapedQuote(st, tail);
      } else {
        LexLiteral(st, s[0], tail);
      }
    }
  }

  lemma {:induction false} LexToggle(st: Lexer, tail: string)
    requires !st.inDouble
    ensures Lex(st, [QUOTE] + tail) == Lex(st.(inSingle := !st.inSingle), tail)
  {
    assert ([QUOTE] + tail)[1..] == tail;
  }

  lemma {:induction false} LexBackslash(st: Lexer, c: char, tail: string)
    requires !st.inSingle
    ensures Lex(st, ['\\', c] + tail) == Lex(st.(cur := st.cur + [c]), tail)
  {
    assert (['\\', c] + tail)[2..] == tail;
  }

  lemma {:induction false} LexEscapedQuote(st: Lexer, tail: string)
    requires st.inSingle && !st.inDouble
    ensures Lex(st, "'\\''" + tail) == Lex(st.(cur := st.cur + [QUOTE]), tail)
  {
    EscapedQuoteParts(tail);
    LexToggle(st, ['\\', QUOTE] + ([QUOTE] + tail));
    LexBackslash(st.(inSingle := false), QUOTE, [QUOTE] + tail);
    LexToggle(st.(inSingle := false, cur := st.cur + [QUOTE]), tail);
  }

  lemma {:induction false} LexLiteral(st: Lexer, c: char, tail: string)
    requires st.inSingle && !st.inDouble && c != QUOTE
    ensures Lex(st, [c] + tail) == Lex(st.(cur := st.cur + [c]), tail)
  {
    assert ([c] + tail)[1..] == tail;
  }

  lemma {:induction false} LexQuoted(st: Lexer, s: string)
    requires !st.inSingle && !st.inDouble
    ensures Lex(st, "'" + s + "'") == Lex(st.(inSingle := true), s + "'")
  {
    assert ("'" + s + "'")[1..] == s + "'";
  }

  lemma {:induction false} LexPlain(st: Lexer, s: string, rest: string)
    requires !st.inSingle && !st.inDouble && !NeedsQuoting(s) && QUOTE !in s
    ensures Lex(st, s + rest) == Lex(st.(cur := st.cur + s), rest)
    decreases |s|
  {
    if s == "" {
      assert s + rest == rest && st.cur + s == st.cur;
    } else {
      assert s[0] !in SPECIAL;
      LexPlain(st.(cur := st.cur + [s[0]]), s[1..], rest);
      assert (s + rest)[1..] == s[1..] + rest;
      assert st.cur + [s[0]] + s[1..] == st.cur + s;
    }
  }

  /** Escaping neither makes nor breaks a leading `~/`. */
  lemma {:induction false} EscapeKeepsHome(s: string)
    ensures "~/" <= Escape(s) <==> "~/" <= s
    ensures "~/" <= s ==> Escape(s) == "~/" + Escape(s[2..])
  {
    if s != "" && s[0] == '~' {
      var t := s[1..];
      assert Escape(s) == "~" + Escape(t);
      assert Escape(s)[0] == '~';
      if t != "" {
        assert Escape(t)[0] == s[1] && Escape(s)[1] == Escape(t)[0];
        assert s[1] == '/' ==> Escape(t) == "/" + Escape(t[1..]);
        assert t[1..] == s[2..];
      } else {
        assert |Escape(s)| == 1;
      }
    } else if s != "" {
      assert Escape(s)[0] == s[0];
    }
  }

  lemma {:induction false} LexClose(st: Lexer)
    requires st.inSingle && !st.inDouble
    ensures Lex(st, "'") == st.(inSingle := false)
  {
    assert "'"[1..] == "";
  }

  lemma {:induction false} LexQuotedWord(st: Lexer, s: string)
    requires !st.inSingle && !st.inDouble
    ensures Lex(st, "'" + Escape(s) + "'") == st.(cur := st.cur + s)
  {
    LexQuoted(st, Escape(s));
    LexEscaped(st.(inSingle := true), s, "'");
    LexClose(st.(inSingle := true, cur := st.cur + s));
  }

  lemma {:induction false} LexHomeWord(st: Lexer, s: string)
    requires !st.inSingle && !st.inDouble
    ensures Lex(st, "~/'" + Escape(s) + "'") == st.(cur := st.cur + "~/" + s)
  {
    var quoted := "'" + Escape(s) + "'";
    assert "~/'" + Escape(s) + "'" == "~/" + quoted;
    LexPlain(st, "~/", quoted);
    LexQuotedWord(st.(cur := st.cur + "~/"), s);
  }

  /** In any unquoted state the tokenizer takes the replacement as more of the current word. */
  lemma {:induction false} LexReplacement(st: Lexer, inner: string, inQuote: bool)
    requires !st.inSingle && !st.inDouble
    ensures Lex(st, Replacement(inner, inQuote)) == st.(cur := st.cur + inner)
  {
    if !IsQuoted(inner, inQuote) {
      LexPlain(st, inner, "");
      assert inner + "" == inner;
    } else {
      EscapeKeepsHome(inner);
      if "~/" <= inner {
        LexHomeWord(st, inner[2..]);
        assert st.cur + "~/" + inner[2..] == st.cur + inner;
        assert Escape(inner)[2..] == Escape(inner[2..]);
      } else {
        LexQuotedWord(st, inner);
      }
    }
  }

  /** Tokenizing what the completion inserts gives back exactly that one word. */
  lemma {:induction false} CompletionRoundTrip(inner: string, inQuote: bool)
    ensures Tokens(Replacement(inner, inQuote)) == if inner == "" then [] else [inner]
  {
    LexReplacement(START, inner, inQuote);
    assert "" + inner == inner;
  }

  // Where the word being completed starts.

  /** Quote flags, and how many characters the word at hand has so far. */
  datatype Scanner = Scanner(word: nat, inSingle: bool, inDouble: bool) {
    predicate Unquoted() { !inSingle && !inDouble }
  }

  /** One turn of the loop of `find_comp_word_start` on the unread text `s`. */
  function Advance(st: Scanner, s: string): (r: (Scanner, nat))
    requires s != ""
    ensures 1 <= r.1 <= |s|
  {
    var c := s[0];
    var next := st.(word := st.word + 1);
    if c == '\'' && !st.inDouble then (next.(inSingle := !st.inSingle), 1)
    else if c == '"' && !st.inSingle then (next.(inDouble := !st.inDouble), 1)
    else if c == '\\' && !st.inSingle && |s| > 1 then (st.(word := st.word + 2), 2)
    else if IsBlank(c) && st.Unquoted() then (st.(word := 0), 1)
    else (next, 1)
  }

  predicate IsBlank(c: char) { c == ' ' || c == '\t' || c == '\n' }

  function Scan(st: Scanner, s: string): Scanner
    decreases |s|
  {
    if s == "" then st
    else
      var (next, n) := Advance(st, s);
      Scan(next, s[n..])
  }

  lemma {:induction false} ScanBounds(st: Scanner, s: string)
    ensures Scan(st, s).word == st.word + |s| || Scan(st, s).word < |s|
    decreases |s|
  {
    if s != "" {
      var (next, n) := Advance(st, s);
      ScanBounds(next, s[n..]);
    }
  }

  const CLEAN := Scanner(0, false, false)

  function WordStart(s: string): (w: nat)
    ensures w <= |s|
  {
    ScanBounds(CLEAN, s);
    |s| - Scan(CLEAN, s).word
  }

  lemma {:induction false} ScanAt(st: Scanner, s: string, i: nat)
    requires i < |s|
    ensures var (next, k) := Advance(st, s[i..]);
            Scan(st, s[i..]) == Scan(next, s[i + k..])
  {
    assert s[i..][Advance(st, s[i..]).1..] == s[i + Advance(st, s[i..]).1..];
  }

  /** One turn of the loop, at index `i`. */
  method ScanOne(s: string, i: nat, start: nat, inSingle: bool, inDouble: bool)
    returns (i': nat, start': nat, inSingle': bool, inDouble': bool)
    requires start <= i < |s|
    ensures start' <= i' && i < i' <= |s|
    ensures (Scanner(i' - start', inSingle', inDouble'), i' - i) == Advance(Scanner(i - start, inSingle, inDouble), s[i..])
  {
    i', start', inSingle', inDouble' := i + 1, start, inSingle, inDouble;
    if s[i] == '\'' && !inDouble {
      inSingle' := !inSingle;
    } else if s[i] == '"' && !inSingle {
      inDouble' := !inDouble;
    } else if s[i] == '\\' && !inSingle && i + 1 < |s| {
      i' := i + 2;
    } else if IsBlank(s[i]) && !inSingle && !inDouble {
      start' := i + 1;
    }
  }

  /** `find_comp_word_start`. */
  method FindCompWordStart(s: string) returns (start: nat, inSingle: bool, inDouble: bool)
    ensures start == WordStart(s) && Scan(CLEAN, s) == Scanner(|s| - start, inSingle, inDouble)
  {
    start, inSingle, inDouble := 0, false, false;
    var i := 0;
    while i < |s|
      invariant start <= i <= |s|
      invariant Scan(CLEAN, s) == Scan(Scanner(i - start, inSingle, inDouble), s[i..])
    {
      ScanAt(Scanner(i - start, inSingle, inDouble), s, i);
      i, start, inSingle, inDouble := ScanOne(s, i, start, inSingle, inDouble);
    }
  }

  /** Whole steps of the scan lead to a word's start at `n`. */
  predicate Reaches(st: Scanner, s: string, n: nat)
    decreases |s|
  {
    s != "" && n <= |s|
    && var (next, k) := Advance(st, s);
       if k == n then next == CLEAN else k < n && Reaches(next, s[k..], n - k)
  }

  lemma {:induction false} StartIsReached(st: Scanner, s: string, n: nat)
    requires 0 < n <= |s| && Scan(st, s).word == |s| - n
    ensures Reaches(st, s, n)
    decreases |s|
  {
    var (next, k) := Advance(st, s);
    ScanBounds(next, s[k..]);
    if k < n {
      StartIsReached(next, s[k..], n - k);
    }
  }

  lemma {:induction false} DropOfPrefix(s: string, n: nat, k: nat, x: string)
    requires k <= n <= |s|
    ensures (s[..n] + x)[k..] == s[k..][..n - k] + x && s[..n][k..] == s[k..][..n - k]
  {
  }

  lemma {:induction false} ScanStepAgrees(st: Scanner, s: string, n: nat, x: string)
    requires s != "" && Advance(st, s).1 < n <= |s|
    ensures var (next, k) := Advance(st, s);
            Scan(st, s[..n] + x) == Scan(next, s[k..][..n - k] + x)
  {
    var k := Advance(st, s).1;
    var t := s[..n] + x;
    assert t[0] == s[0] && |t| > 1;
    DropOfPrefix(s, n, k, x);
  }

  /** Only an unquoted blank starts a word. */
  lemma {:induction false} ScanBlank(st: Scanner, s: string, x: string)
    requires s != "" && Advance(st, s).0 == CLEAN
    ensures Advance(st, s).1 == 1 && IsBlank(s[0]) && st.Unquoted() && Scan(st, s[..1] + x) == Scan(CLEAN, x)
  {
    assert (s[..1] + x)[1..] == x;
  }

  lemma {:induction false} ScanFromReached(st: Scanner, s: string, x: string, n: nat)
    requires Reaches(st, s, n)
    ensures Scan(st, s[..n] + x) == Scan(CLEAN, x)
    decreases |s|
  {
    var (next, k) := Advance(st, s);
    if k == n {
      ScanBlank(st, s, x);
    } else {
      ScanFromReached(next, s[k..], x, n - k);
      ScanStepAgrees(st, s, n, x);
    }
  }

  /** The start found is 0 or just past a blank: text put there begins a scan of its own. */
  lemma {:induction false} WordStartIsClean(s: string, x: string)
    ensures Scan(CLEAN, s[..WordStart(s)] + x) == Scan(CLEAN, x)
  {
    var n := WordStart(s);
    if n == 0 {
      assert s[..0] + x == x;
    } else {
      StartIsReached(CLEAN, s, n);
      ScanFromReached(CLEAN, s, x, n);
    }
  }

  // What the scan makes of the replacement.

  lemma {:induction false} ScanChar(st: Scanner, c: char, tail: string)
    requires st.Unquoted() && c !in SPECIAL && c != QUOTE && c != '\n'
    ensures Scan(st, [c] + tail) == Scan(st.(word := st.word + 1), tail)
  {
    assert ([c] + tail)[1..] == tail;
  }

  lemma {:induction false} ScanPlain(st: Scanner, s: string, rest: string)
    requires st.Unquoted() && !NeedsQuoting(s) && QUOTE !in s && '\n' !in s
    ensures Scan(st, s + rest) == Scan(st.(word := st.word + |s|), rest)
    decreases |s|
  {
    if s == "" {
      assert s + rest == rest;
    } else {
      assert s[0] !in SPECIAL;
      var tail := s[1..] + rest;
      assert s + rest == [s[0]] + tail;
      ScanChar(st, s[0], tail);
      ScanPlain(st.(word := st.word + 1), s[1..], rest);
    }
  }

  /** A newline in bare text starts another word. */
  lemma {:induction false} ScanPlainNewline(st: Scanner, s: string)
    requires st.Unquoted() && !NeedsQuoting(s) && QUOTE !in s && '\n' in s
    ensures Scan(st, s).word < |s|
    decreases |s|
  {
    assert s[0] !in SPECIAL;
    if s[0] != '\n' {
      ScanPlainNewline(st.(word := st.word + 1), s[1..]);
    } else {
      ScanBounds(st.(word := 0), s[1..]);
    }
  }

  lemma {:induction false} ScanToggle(st: Scanner, tail: string)
    requires !st.inDouble
    ensures Scan(st, [QUOTE] + tail) == Scan(st.(inSingle := !st.inSingle, word := st.word + 1), tail)
  {
    assert ([QUOTE] + tail)[1..] == tail;
  }

  lemma {:induction false} ScanBackslash(st: Scanner, c: char, tail: string)
    requires !st.inSingle
    ensures Scan(st, ['\\', c] + tail) == Scan(st.(word := st.word + 2), tail)
  {
    assert (['\\', c] + tail)[2..] == tail;
  }

  lemma {:induction false} ScanEscapedQuote(st: Scanner, tail: string)
    requires st.inSingle && !st.inDouble
    ensures Scan(st, "'\\''" + tail) == Scan(st.(word := st.word + 4), tail)
  {
    var open := st.(inSingle := false, word := st.word + 1);
    EscapedQuoteParts(tail);
    ScanToggle(st, ['\\', QUOTE] + ([QUOTE] + tail));
    ScanBackslash(open, QUOTE, [QUOTE] + tail);
    ScanToggle(open.(word := st.word + 3), tail);
  }

  lemma {:induction false} ScanLiteral(st: Scanner, c: char, tail: string)
    requires st.inSingle && !st.inDouble && c != QUOTE
    ensures Scan(st, [c] + tail) == Scan(st.(word := st.word + 1), tail)
  {
    assert ([c] + tail)[1..] == tail;
  }

  lemma {:induction false} ScanEscaped(st: Scanner, s: string, rest: string)
    requires st.inSingle && !st.inDouble
    ensures Scan(st, Escape(s) + rest) == Scan(st.(word := st.word + |Escape(s)|), rest)
    decreases |s|
  {
    if s == "" {
      assert Escape(s) + rest == rest;
    } else {
      var tail := Escape(s[1..]) + rest;
      EscapeSplit(s, rest);
      if s[0] == QUOTE {
        ScanEscapedQuote(st, tail);
        ScanEscaped(st.(word := st.word + 4), s[1..], rest);
      } else {
        ScanLiteral(st, s[0], tail);
        ScanEscaped(st.(word := st.word + 1), s[1..], rest);
      }
    }
  }

  lemma {:induction false} ScanQuotedWord(st: Scanner, s: string)
    requires st.Unquoted()
    ensures Scan(st, "'" + Escape(s) + "'") == st.(word := st.word + |Escape(s)| + 2)
  {
    var open := st.(inSingle := true, word := st.word + 1);
    assert "'" + Escape(s) + "'" == [QUOTE] + (Escape(s) + "'");
    ScanToggle(st, Escape(s) + "'");
    ScanEscaped(open, s, "'");
    assert [QUOTE] + "" == "'";
    ScanToggle(open.(word := open.word + |Escape(s)|), "");
  }

  lemma {:induction false} ScanHomeWord(st: Scanner, s: string)
    requires st.Unquoted()
    ensures Scan(st, "~/'" + Escape(s) + "'") == st.(word := st.word + |Escape(s)| + 4)
  {
    var quoted := "'" + Escape(s) + "'";
    assert "~/'" + Escape(s) + "'" == "~/" + quoted;
    ScanPlain(st, "~/", quoted);
    ScanQuotedWord(st.(word := st.word + 2), s);
  }

  /** The replacement is scanned as one word, left unquoted at its end, unless it is bare
      and holds a newline. */
  lemma {:induction false} ScanReplacement(inner: string, inQuote: bool)
    ensures var r := Replacement(inner, inQuote);
            && (IsQuoted(inner, inQuote) || '\n' !in inner ==> Scan(CLEAN, r) == CLEAN.(word := |r|))
            && (!IsQuoted(inner, inQuote) && '\n' in inner ==> Scan(CLEAN, r).word < |r|)
  {
    if !IsQuoted(inner, inQuote) {
      if '\n' in inner {
        ScanPlainNewline(CLEAN, inner);
      } else {
        ScanPlain(CLEAN, inner, "");
        assert inner + "" == inner;
      }
    } else {
      EscapeKeepsHome(inner);
      if "~/" <= inner {
        assert Escape(inner)[2..] == Escape(inner[2..]);
        ScanHomeWord(CLEAN, inner[2..]);
      } else {
        ScanQuotedWord(CLEAN, inner);
      }
    }
  }

  /** Completing again after the insertion finds the same word start, exactly when the
      inserted text was quoted or holds no newline: `needs_quoting` omits the newline, on
      which the word scan splits. */
  lemma {:induction false} WordStartIsStable(before: string, inner: string, inQuote: bool)
    ensures WordStart(before[..WordStart(before)] + Replacement(inner, inQuote)) == WordStart(before)
            <==> IsQuoted(inner, inQuote) || '\n' !in inner
  {
    WordStartIsClean(before, Replacement(inner, inQuote));
    ScanReplacement(inner, inQuote);
  }

  lemma {:induction false} BareNewlineMovesTheStart()
    ensures WordStart(Replacement("a\nb", false)) != 0
  {
    var inner := "a\nb";
    assert inner[1] == '\n';
    ScanReplacement(inner, false);
  }

  // The tokenizer and the word scan side by side.

  /** The tokenizer reads the text before the word start to an unquoted state; it has no
      word in progress there, exactly when the start was not set by a newline. */
  lemma {:induction false} LexToWordStart(lx: Lexer, st: Scanner, s: string, x: string, n: nat)
    requires lx.inSingle == st.inSingle && lx.inDouble == st.inDouble && Reaches(st, s, n)
    ensures n > 0
    ensures var at := Lex(lx, s[..n]);
            !at.inSingle && !at.inDouble && (at.cur == "" <==> s[n - 1] != '\n') && Lex(lx, s[..n] + x) == Lex(at, x)
    decreases |s|
  {
    var (next, k) := Advance(st, s);
    if k == n {
      ScanBlank(st, s, x);
      LexBlank(lx, s[0], x);
      assert s[..1] == [s[0]];
    } else {
      LexStepAgrees(lx, st, s, n, x);
      LexToWordStart(Step(lx, s).0, next, s[k..], x, n - k);
      assert s[k..][n - k - 1] == s[n - 1];
    }
  }

  lemma {:induction false} LexBlank(lx: Lexer, c: char, x: string)
    requires !lx.inSingle && !lx.inDouble && IsBlank(c)
    ensures var at := Lex(lx, [c]);
            !at.inSingle && !at.inDouble && (at.cur == "" <==> c != '\n') && Lex(lx, [c] + x) == Lex(at, x)
  {
    assert ([c] + x)[1..] == x && [c][1..] == "";
  }

  lemma {:induction false} LexStepAgrees(lx: Lexer, st: Scanner, s: string, n: nat, x: string)
    requires s != "" && lx.inSingle == st.inSingle && lx.inDouble == st.inDouble
    requires Advance(st, s).1 < n <= |s|
    ensures var k := Advance(st, s).1;
            var next := Step(lx, s).0;
            next.inSingle == Advance(st, s).0.inSingle && next.inDouble == Advance(st, s).0.inDouble
            && Lex(lx, s[..n]) == Lex(next, s[k..][..n - k])
            && Lex(lx, s[..n] + x) == Lex(next, s[k..][..n - k] + x)
  {
    var k := Advance(st, s).1;
    assert Step(lx, s[..n]) == Step(lx, s) && Step(lx, s).1 == k;
    assert Step(lx, s[..n] + x) == Step(lx, s);
    DropOfPrefix(s, n, k, x);
  }

  /** In the whole line: the tokens become the earlier ones and the completed word, exactly
      when the word did not start after a newline, which the tokenizer keeps inside a word. */
  lemma {:induction false} CompletionAddsOneToken(before: string, inner: string, inQuote: bool)
    requires inner != ""
    ensures var w := WordStart(before);
            Tokens(before[..w] + Replacement(inner, inQuote)) == Tokens(before[..w]) + [inner]
            <==> w == 0 || before[w - 1] != '\n'
  {
    var w := WordStart(before);
    var x := Replacement(inner, inQuote);
    var at := Lex(START, before[..w]);
    if w > 0 {
      StartIsReached(CLEAN, before, w);
      LexToWordStart(START, CLEAN, before, x, w);
    } else {
      assert before[..w] + x == x && before[..w] == "";
    }
    LexReplacement(at, inner, inQuote);
    assert at.cur == "" ==> at.cur + inner == inner;
    assert Tokens(before[..w] + x) == at.tokens + [at.cur + inner];
    if at.cur != "" {
      assert |Tokens(before[..w]) + [inner]| == |at.tokens| + 2;
    }
  }

  lemma {:induction false} NewlineJoinsTheWords()
    ensures Tokens("a\n"[..WordStart("a\n")] + Replacement("b", false)) != Tokens("a\n"[..WordStart("a\n")]) + ["b"]
  {
    var before := "a\n";
    assert before[1..] == "\n" && before[1..][1..] == "";
    assert Scan(CLEAN, before) == Scan(CLEAN.(word := 1), "\n");
    assert Scan(CLEAN.(word := 1), "\n") == CLEAN;
    CompletionAddsOneToken(before, "b", false);
  }

  /** `preview_completion`: with nothing selected the base line comes back; otherwise the
      word under the cursor is replaced and the cursor put after it. */
  method PreviewCompletion(text: string, cursor: nat, selected: Option<string>, inQuote: bool)
    returns (line: string, at: nat)
    requires cursor <= |text|
    ensures at <= |line| && line[at..] == text[cursor..]
    ensures selected.None? ==> line == text && at == cursor
    ensures selected.Some? ==>
              var before := text[..cursor];
              line[..at] == before[..WordStart(before)] + Replacement(selected.value, inQuote)
  {
    if selected.None? {
      return text, cursor;
    }
    var start, _, _ := FindCompWordStart(text[..cursor]);
    var replacement := Replacement(selected.value, inQuote);
    assert text[..cursor][..start] == text[..start];
    line := text[..start] + replacement + text[cursor..];
    at := start + |replacement|;
    assert line[..at] == text[..start] + replacement;
  }
}
