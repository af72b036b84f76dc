/** What the word scan and the tokenizer mean, told from the characters of the line. */
module QuoteLaws {
  import opened Quoting

  // Where a character stands.

  datatype Where = Plain | InSingle | InDouble

  /** The quotes open before character `i`, and whether a backslash escapes it: single
      quotes keep everything to the next one, double quotes all but a backslash. */
  function Standing(s: string, i: nat): (Where, bool)
    requires i <= |s|
  {
    if i == 0 then (Plain, false)
    else
      var (at, escaped) := Standing(s, i - 1);
      var c := s[i - 1];
      if escaped then (at, false)
      else
        match at
        case InSingle => (if c == '\'' then Plain else InSingle, false)
        case InDouble => if c == '"' then (Plain, false) else (InDouble, c == '\\' && i < |s|)
        case Plain =>
          if c == '\'' then (InSingle, false)
          else if c == '"' then (InDouble, false)
          else (Plain, c == '\\' && i < |s|)
  }

  /** An unquoted, unescaped blank. */
  predicate Breaks(s: string, i: nat) {
    i < |s| && Standing(s, i) == (Plain, false) && s[i] in {' ', '\t', '\n'}
  }

  ghost predicate NoBreak(s: string, from: nat) {
    forall i: nat :: from <= i < |s| ==> !Breaks(s, i)
  }

  function WhereOf(st: Scanner): Where {
    if st.inSingle then InSingle else if st.inDouble then InDouble else Plain
  }

  /** What a scan from `i` finds: the last break, if there is one. */
  ghost predicate FindsLast(s: string, i: nat, st: Scanner, r: Scanner) {
    || (NoBreak(s, i) && r.word == st.word + |s| - i)
    || (exists j :: i <= j < |s| && LastBreak(s, j) && r.word == |s| - 1 - j)
  }

  ghost predicate LastBreak(s: string, j: nat) {
    Breaks(s, j) && NoBreak(s, j + 1)
  }

  /** One step of the scan goes from standing to standing, and restarts exactly at a break. */
  lemma {:induction false} StepStands(s: string, i: nat, st: Scanner)
    requires i < |s| && Standing(s, i) == (WhereOf(st), false) && !(st.inSingle && st.inDouble)
    ensures var (next, k) := Advance(st, s[i..]);
            && i + k <= |s| && !(next.inSingle && next.inDouble)
            && Standing(s, i + k) == (WhereOf(next), false)
            && next.word == (if Breaks(s, i) then 0 else st.word + k)
            && (Breaks(s, i) ==> k == 1)
            && (k == 2 ==> !Breaks(s, i + 1))
  {
    var k := Advance(st, s[i..]).1;
    assert s[i..][0] == s[i];
    assert k == 2 ==> Standing(s, i + 1) == (WhereOf(st), true);
  }

  lemma {:induction false} ScanFindsLast(s: string, i: nat, st: Scanner)
    requires i <= |s| && Standing(s, i) == (WhereOf(st), false) && !(st.inSingle && st.inDouble)
    ensures FindsLast(s, i, st, Scan(st, s[i..]))
    decreases |s| - i
  {
    if i == |s| {
      assert s[i..] == "";
    } else {
      var (next, k) := Advance(st, s[i..]);
      StepStands(s, i, st);
      ScanFindsLast(s, i + k, next);
      assert s[i..][k..] == s[i + k..];
      assert k == 1 || k == 2;
      var r := Scan(next, s[i + k..]);
      assert Scan(st, s[i..]) == r;
      if NoBreak(s, i + k) && r.word == next.word + |s| - (i + k) {
        if Breaks(s, i) {
          assert LastBreak(s, i);
        } else {
          assert NoBreak(s, i);
        }
      } else {
        var j :| i + k <= j < |s| && LastBreak(s, j) && r.word == |s| - 1 - j;
        assert i <= j;
      }
    }
  }

  /** The word start is 0 or just past an unquoted, unescaped blank, with no such blank
      after it; and it is the only such place. */
  lemma {:induction false} WordStartIsLastBreak(s: string)
    ensures var w := WordStart(s);
            (w == 0 || Breaks(s, w - 1)) && NoBreak(s, w)
    ensures forall v: nat :: v <= |s| && (v == 0 || Breaks(s, v - 1)) && NoBreak(s, v) ==> v == WordStart(s)
  {
    ScanFindsLast(s, 0, CLEAN);
    assert s[0..] == s;
    var w := WordStart(s);
    if !NoBreak(s, 0) {
      var j :| 0 <= j < |s| && LastBreak(s, j) && Scan(CLEAN, s).word == |s| - 1 - j;
      assert w == j + 1;
    }
    forall v: nat | v <= |s| && (v == 0 || Breaks(s, v - 1)) && NoBreak(s, v)
      ensures v == w
    {
    }
  }

  // Lines without quotes.

  predicate Quoteless(s: string) {
    forall i :: 0 <= i < |s| ==> s[i] != '\'' && s[i] != '"' && s[i] != '\\'
  }

  predicate Blankless(s: string) {
    forall i :: 0 <= i < |s| ==> s[i] != ' ' && s[i] != '\t' && s[i] != '\n'
  }

  lemma {:induction false} QuotelessStands(s: string, i: nat)
    requires i <= |s| && Quoteless(s)
    ensures Standing(s, i) == (Plain, false)
  {
    if i > 0 {
      QuotelessStands(s, i - 1);
    }
  }

  /** On a line without quotes or backslashes the word starts after the last blank, whichever
      of the three it is, and at the front when there is none. */
  lemma {:induction false} WordStartsAfterTheLastBlank(a: string, b: char, x: string)
    requires Quoteless(a) && Quoteless(x) && Blankless(x) && b in {' ', '\t', '\n'}
    ensures WordStart(a + [b] + x) == |a| + 1 && WordStart(x) == 0
  {
    var s := a + [b] + x;
    assert Quoteless(s);
    forall i: nat | i <= |s|
      ensures Standing(s, i) == (Plain, false)
    {
      QuotelessStands(s, i);
    }
    assert s[|a|] == b;
    assert Breaks(s, |a|);
    assert NoBreak(s, |a| + 1);
    WordStartIsLastBreak(s);
    assert NoBreak(x, 0);
    WordStartIsLastBreak(x);
  }

  /** So completing the last word of such a line replaces that word and nothing else. */
  lemma {:induction false} CompletionReplacesTheLastWord(a: string, b: char, x: string, inner: string, inQuote: bool)
    requires Quoteless(a) && Quoteless(x) && Blankless(x) && b in {' ', '\t'} && inner != ""
    ensures var before := a + [b] + x;
            && before[..WordStart(before)] == a + [b]
            && Tokens(before[..WordStart(before)] + Replacement(inner, inQuote)) == Tokens(a) + [inner]
  {
    var before := a + [b] + x;
    WordStartsAfterTheLastBlank(a, b, x);
    assert before[..|a| + 1] == a + [b];
    CompletionAddsOneToken(before, inner, inQuote);
    BlankSeparates(a, b, "");
    assert a + [b] + "" == a + [b];
  }

  // What may stay bare.

  /** The characters that section 2.2 of the POSIX Shell Command Language says must be quoted
      to stand for themselves, and those it says may need it, but for the newline, `~`, `=`
      and `%`. */
  const MUST_BE_QUOTED: set<char> :=
    {'|', '&', ';', '<', '>', '(', ')', '$', '`', '\\', '"', '\'', ' ', '\t', '*', '?', '[', '#'}

  /** A completion is inserted as it is only when it has none of them, and with one of them or
      inside an open quote it is inserted between single quotes, a leading `~/` before them. */
  lemma {:induction false} OnlyHarmlessTextStaysBare(inner: string, inQuote: bool)
    ensures var r := Replacement(inner, inQuote);
            if inQuote || (exists i :: 0 <= i < |inner| && (inner[i] in MUST_BE_QUOTED || inner[i] == ']'))
            then |r| >= 2 && r[|r| - 1] == '\'' && (if "~/" <= inner then "~/'" <= r else r[0] == '\'') && r != inner
            else r == inner
  {
    var r := Replacement(inner, inQuote);
    if IsQuoted(inner, inQuote) {
      EscapeGrows(inner);
      EscapeKeepsHome(inner);
      assert |r| >= |inner| + 2;
      if "~/" <= inner {
        assert r[..3] == "~/'";
      }
    }
  }

  lemma {:induction false} EscapeGrows(s: string)
    ensures |Escape(s)| >= |s|
  {
    if s != "" {
      EscapeGrows(s[1..]);
    }
  }

  // Tokens.

  lemma {:induction false} LexQuoteless(st: Lexer, s: string, rest: string)
    requires !st.inSingle && !st.inDouble && Quoteless(s)
    ensures Lex(st, s + rest) == Lex(Lex(st, s), rest)
    ensures !Lex(st, s).inSingle && !Lex(st, s).inDouble
    decreases |s|
  {
    if s == "" {
      assert s + rest == rest;
    } else {
      var next := Step(st, s).0;
      assert Step(st, s + rest) == (next, 1) && Step(st, s) == (next, 1);
      assert (s + rest)[1..] == s[1..] + rest;
      LexQuoteless(next, s[1..], rest);
    }
  }

  function With(tokens: seq<string>, st: Lexer): Lexer {
    st.(tokens := tokens + st.tokens)
  }

  lemma {:induction false} StepKeepsTokens(tokens: seq<string>, st: Lexer, s: string)
    requires s != ""
    ensures Step(With(tokens, st), s) == (With(tokens, Step(st, s).0), Step(st, s).1)
  {
    assert tokens + (st.tokens + [st.cur]) == tokens + st.tokens + [st.cur];
  }

  /** Tokens already finished stay in front of what follows. */
  lemma {:induction false} LexKeepsTokens(tokens: seq<string>, st: Lexer, s: string)
    ensures Lex(With(tokens, st), s) == With(tokens, Lex(st, s))
    decreases |s|
  {
    if s != "" {
      StepKeepsTokens(tokens, st, s);
      LexKeepsTokens(tokens, Step(st, s).0, s[Step(st, s).1..]);
    }
  }

  /** A space or tab outside quotes separates: the tokens of both sides, in order. */
  lemma {:induction false} BlankSeparates(a: string, b: char, x: string)
    requires Quoteless(a) && b in {' ', '\t'}
    ensures Tokens(a + [b] + x) == Tokens(a) + Tokens(x)
  {
    var at := Lex(START, a);
    LexQuoteless(START, a, [b] + x);
    assert a + [b] + x == a + ([b] + x);
    var next := Lexer(at.Finish(), "", false, false);
    assert ([b] + x)[1..] == x;
    assert Lex(at, [b] + x) == Lex(next, x);
    LexKeepsTokens(at.Finish(), START, x);
    var rest := Lex(START, x);
    assert With(at.Finish(), START) == next;
    assert rest.cur != "" ==> at.Finish() + rest.tokens + [rest.cur] == at.Finish() + (rest.tokens + [rest.cur]);
  }

  lemma {:induction false} LexInDouble(st: Lexer, s: string, rest: string)
    requires st.inDouble && !st.inSingle && forall i :: 0 <= i < |s| ==> s[i] != '"' && s[i] != '\\'
    ensures Lex(st, s + rest) == Lex(st.(cur := st.cur + s), rest)
    decreases |s|
  {
    if s == "" {
      assert s + rest == rest && st.cur + s == st.cur;
    } else {
      assert (s + rest)[1..] == s[1..] + rest;
      LexInDouble(st.(cur := st.cur + [s[0]]), s[1..], rest);
      assert st.cur + [s[0]] + s[1..] == st.cur + s;
    }
  }

  /** Double quotes keep blanks and single quotes: the text between them is one token. */
  lemma {:induction false} DoubleQuotedIsOneToken(s: string)
    requires s != "" && forall i :: 0 <= i < |s| ==> s[i] != '"' && s[i] != '\\'
    ensures Tokens(['"'] + s + ['"']) == [s]
  {
    var open := Lexer([], "", false, true);
    assert (['"'] + s + ['"'])[1..] == s + ['"'];
    assert Lex(START, ['"'] + s + ['"']) == Lex(open, s + ['"']);
    LexInDouble(open, s, ['"']);
    assert "" + s == s;
    var full := open.(cur := s);
    assert ['"'][1..] == "";
    assert Lex(full, ['"']) == full.(inDouble := false);
  }
}
