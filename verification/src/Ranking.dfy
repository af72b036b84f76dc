/** What the order of the results means: which of two matching commands comes first, told
    from the texts and the log alone. */
module Ranking {
  import opened Text
  import opened Matching
  import opened Directories
  import opened Tallies
  import opened Context
  import opened Tiers
  import opened TopK
  import opened HistoryIndex
  import opened LatestTable
  import opened Search
  import Subsequence

  // The list of results.

  /** Wherever `y` is listed, `x` is listed before it. */
  ghost predicate Precedes(results: seq<FuzzyMatch>, x: nat, y: nat) {
    forall j :: 0 <= j < |results| && results[j].entry == y ==> ListedBefore(results, x, j)
  }

  ghost predicate ListedBefore(results: seq<FuzzyMatch>, x: nat, j: nat) {
    exists i :: 0 <= i < j && i < |results| && results[i].entry == x
  }

  lemma {:induction false} BestPrecedes(lt: Order, n: nat, s: set<nat>, limit: nat, x: nat, y: nat, j: nat) returns (i: nat)
    requires IsOrder(lt, n) && Within(s, n) && x in s && y in s && lt(y, x)
    requires j < |Best(lt, n, s, limit)| && Best(lt, n, s, limit)[j] == y
    ensures i < j && Best(lt, n, s, limit)[i] == x
    decreases limit
  {
    var m := Greatest(lt, n, s);
    assert x == y || Comparable(lt, x, y);
    if m == x {
      i := 0;
    } else {
      assert m != y;
      var rest := BestPrecedes(lt, n, s - {m}, limit - 1, x, y, j - 1);
      i := rest + 1;
    }
  }

  lemma {:induction false} ResultsStep(ix: Index, fold: Folding, query: Str, front: seq<nat>, last: nat)
    requires AllMatch(ix, fold, query, front + [last])
    ensures AllMatch(ix, fold, query, front) && last < |ix.texts| && Matches(fold, query, ix.texts[last])
    ensures Results(ix, fold, query, front + [last]) == Results(ix, fold, query, front) + [Result(ix, fold, query, last)]
  {
    var top := front + [last];
    assert top[..|front|] == front && top[|front|] == last;
    assert forall i :: 0 <= i < |front| ==> top[i] == front[i];
  }

  lemma {:induction false} ResultsLength(ix: Index, fold: Folding, query: Str, top: seq<nat>)
    requires AllMatch(ix, fold, query, top)
    ensures |Results(ix, fold, query, top)| == |top|
  {
    if top != [] {
      ResultsLength(ix, fold, query, top[..|top| - 1]);
    }
  }

  lemma {:induction false} ResultsAt(ix: Index, fold: Folding, query: Str, top: seq<nat>, i: nat)
    requires AllMatch(ix, fold, query, top) && i < |top|
    ensures |Results(ix, fold, query, top)| == |top|
    ensures Results(ix, fold, query, top)[i] == Result(ix, fold, query, top[i])
    decreases |top|
  {
    var front, last := top[..|top| - 1], top[|top| - 1];
    assert top == front + [last];
    ResultsStep(ix, fold, query, front, last);
    ResultsLength(ix, fold, query, front);
    if i < |front| {
      ResultsAt(ix, fold, query, front, i);
    }
  }

  lemma {:induction false} ResultEntry(ix: Index, fold: Folding, query: Str, idx: nat)
    requires idx < |ix.texts| && Matches(fold, query, ix.texts[idx])
    ensures Result(ix, fold, query, idx).entry == idx
  {
  }

  lemma {:induction false} ResultsEntries(ix: Index, fold: Folding, query: Str, top: seq<nat>)
    requires AllMatch(ix, fold, query, top)
    ensures |Results(ix, fold, query, top)| == |top|
    ensures forall i :: 0 <= i < |top| ==> Results(ix, fold, query, top)[i].entry == top[i]
  {
    ResultsLength(ix, fold, query, top);
    forall i | 0 <= i < |top|
      ensures Results(ix, fold, query, top)[i].entry == top[i]
    {
      ResultsAt(ix, fold, query, top, i);
      ResultEntry(ix, fold, query, top[i]);
    }
  }

  /** The matching candidates with the greatest keys, as `Shown` lists them. */
  lemma {:induction false} ShownEntries(ix: Index, fold: Folding, query: Str, cwd: Option<Path>, now: nat,
                                        candidates: seq<nat>, limit: nat) returns (top: seq<nat>)
    requires ix.Ok() && InRange(ix, candidates)
    ensures IsOrder(OrderOf(Keys(ix, fold, query, cwd, now)), |ix.texts|)
    ensures Within(MatchSet(ix, fold, query, candidates), |ix.texts|)
    ensures top == Best(OrderOf(Keys(ix, fold, query, cwd, now)), |ix.texts|, MatchSet(ix, fold, query, candidates), limit)
    ensures AllMatch(ix, fold, query, top)
    ensures Shown(ix, fold, query, cwd, now, candidates, limit) == Results(ix, fold, query, top)
  {
    KeysAreOrdered(ix, fold, query, cwd, now);
    var order := OrderOf(Keys(ix, fold, query, cwd, now));
    var s := MatchSet(ix, fold, query, candidates);
    BestDescends(order, |ix.texts|, s, limit);
    top := Best(order, |ix.texts|, s, limit);
    assert forall i :: 0 <= i < |top| ==> top[i] in top;
  }

  /** As many results as the limit and the matches allow, each for a matching candidate. */
  lemma {:induction false} ShownIsFull(ix: Index, fold: Folding, query: Str, cwd: Option<Path>, now: nat,
                                       candidates: seq<nat>, limit: nat)
    requires ix.Ok() && InRange(ix, candidates)
    ensures var shown := Shown(ix, fold, query, cwd, now, candidates, limit);
            var all := MatchSet(ix, fold, query, candidates);
            |shown| == (if |all| < limit then |all| else limit) && forall i :: 0 <= i < |shown| ==> shown[i].entry in all
  {
    var top := ShownEntries(ix, fold, query, cwd, now, candidates, limit);
    ResultsEntries(ix, fold, query, top);
    var order := OrderOf(Keys(ix, fold, query, cwd, now));
    var s := MatchSet(ix, fold, query, candidates);
    BestIsFull(order, |ix.texts|, s, limit);
    BestDescends(order, |ix.texts|, s, limit);
    assert forall i :: 0 <= i < |top| ==> top[i] in top;
  }

  /** Both are matching candidates. */
  ghost predicate BothMatch(ix: Index, fold: Folding, query: Str, candidates: seq<nat>, x: nat, y: nat) {
    && x in candidates && y in candidates && x < |ix.texts| && y < |ix.texts|
    && Matches(fold, query, ix.texts[x]) && Matches(fold, query, ix.texts[y])
  }

  lemma {:induction false} GreaterKeyPrecedes(ix: Index, fold: Folding, query: Str, cwd: Option<Path>, now: nat,
                                              candidates: seq<nat>, limit: nat, x: nat, y: nat)
    requires ix.Ok() && InRange(ix, candidates) && BothMatch(ix, fold, query, candidates, x, y)
    requires Less(RankKeyOf(ix, fold, query, cwd, now, y), RankKeyOf(ix, fold, query, cwd, now, x))
    ensures Precedes(Shown(ix, fold, query, cwd, now, candidates, limit), x, y)
  {
    var top := ShownEntries(ix, fold, query, cwd, now, candidates, limit);
    ResultsEntries(ix, fold, query, top);
    var order := OrderOf(Keys(ix, fold, query, cwd, now));
    var shown := Shown(ix, fold, query, cwd, now, candidates, limit);
    forall j | 0 <= j < |shown| && shown[j].entry == y
      ensures ListedBefore(shown, x, j)
    {
      var i := BestPrecedes(order, |ix.texts|, MatchSet(ix, fold, query, candidates), limit, x, y, j);
      assert shown[i].entry == x;
    }
  }

  // Text tiers, told from the text.

  /** The text starts with the query, up to case. */
  predicate AtFront(fold: Folding, query: Str, text: Str) {
    MatchAt(Fold(fold, query), Fold(fold, text), 0)
  }

  /** The text has the query at `s`, up to case. */
  predicate HasAt(fold: Folding, query: Str, text: Str, s: nat) {
    MatchAt(Fold(fold, query), Fold(fold, text), s)
  }

  /** A word starts at `s`: at the front or after one of `/ - _ .`, a space or a tab. */
  predicate WordAt(text: Str, s: nat) {
    s == 0 || (s <= |text| && text[s - 1] in {0x2F, 0x2D, 0x5F, 0x2E, 0x20, 0x09})
  }

  ghost predicate AtWord(fold: Folding, query: Str, text: Str) {
    exists s: nat :: HasAt(fold, query, text, s) && WordAt(text, s)
  }

  ghost predicate Inside(fold: Folding, query: Str, text: Str) {
    exists s: nat :: HasAt(fold, query, text, s)
  }

  lemma {:induction false} StartsAre(fold: Folding, query: Str, text: Str, s: nat)
    ensures IsStart(Fold(fold, query), Fold(fold, text), text, true, s) <==> HasAt(fold, query, text, s) && WordAt(text, s)
    ensures IsStart(Fold(fold, query), Fold(fold, text), text, false, s) <==> HasAt(fold, query, text, s)
    ensures HasAt(fold, query, text, s) ==> s <= |text|
  {
  }

  /** The four tiers, from the best down. */
  lemma {:induction false} TiersAre(fold: Folding, query: Str, text: Str)
    requires query != [] && Matches(fold, query, text)
    ensures var n := Score(Rank(fold, query, text).value);
            (n == 3 <==> AtFront(fold, query, text)) && (n >= 2 <==> AtWord(fold, query, text))
            && (n >= 1 <==> Inside(fold, query, text)) && n <= 3
  {
    var q, low := Fold(fold, query), Fold(fold, text);
    TierMeaning(fold, q, text);
    forall s: nat
      ensures IsStart(q, low, text, true, s) <==> HasAt(fold, query, text, s) && WordAt(text, s)
      ensures IsStart(q, low, text, false, s) <==> HasAt(fold, query, text, s)
      ensures HasAt(fold, query, text, s) ==> s <= |text|
    {
      StartsAre(fold, query, text, s);
    }
    assert AtFront(fold, query, text) ==> HasAt(fold, query, text, 0) && WordAt(text, 0);
    match Rank(fold, query, text).value {
      case Prefix =>
      case BoundarySubstring(s) => assert HasAt(fold, query, text, s) && WordAt(text, s);
      case Substring(s) => assert HasAt(fold, query, text, s);
      case Subsequence =>
    }
  }

  // What one result tells.

  /** The places of a result: characters of the query in order, at most 32, each on an equal
      character of the text, and all of them when the query is no longer than that. */
  ghost predicate PlacesQuery(q: Str, low: Str, at: seq<nat>) {
    && |at| == (if |q| < 32 then |q| else 32)
    && (forall i :: 0 <= i < |at| ==> at[i] < |low| && low[at[i]] == q[i])
    && (|q| <= 32 ==> Embedding(q, low, at))
  }

  lemma {:induction false} ContiguousIsEmbedding(q: Str, low: Str, entry: nat, score: nat, start: nat)
    requires q != [] && MatchAt(q, low, start)
    ensures var at := Contiguous(entry, score, start, |q|).positions;
            && |at| == (if |q| < 32 then |q| else 32) && at[0] == start
            && (forall i :: 0 <= i < |at| ==> at[i] == start + i)
            && PlacesQuery(q, low, at)
  {
    var there := low[start..start + |q|];
    assert forall i :: 0 <= i < |q| ==> there[i] == low[start + i];
  }

  lemma {:induction false} ScatteredPlaces(q: Str, low: Str)
    requires q != [] && Embeds(q, low)
    ensures Subsequence.Match(q, low).Some? && PlacesQuery(q, low, Subsequence.Match(q, low).value)
  {
    Subsequence.MatchSucceeds(q, low);
    var at := Subsequence.MatchIsEmbedding(q, low);
  }

  /** A result names its entry, and its score tells how well the query is placed in the text. */
  lemma {:induction false} ResultScore(ix: Index, fold: Folding, query: Str, idx: nat)
    requires idx < |ix.texts| && query != [] && Matches(fold, query, ix.texts[idx])
    ensures var r, text := Result(ix, fold, query, idx), ix.texts[idx];
            && r.entry == idx && r.score <= 3
            && (r.score == 3 <==> AtFront(fold, query, text))
            && (r.score >= 2 <==> AtWord(fold, query, text))
            && (r.score >= 1 <==> Inside(fold, query, text))
  {
    TiersAre(fold, query, ix.texts[idx]);
    TierMeaning(fold, Fold(fold, query), ix.texts[idx]);
  }

  /** Its positions place the query; in the upper tiers they are consecutive, from the front
      of the text or of a word. */
  lemma {:induction false} ResultPlaces(ix: Index, fold: Folding, query: Str, idx: nat)
    requires idx < |ix.texts| && query != [] && Matches(fold, query, ix.texts[idx])
    ensures var r, text := Result(ix, fold, query, idx), ix.texts[idx];
            && PlacesQuery(Fold(fold, query), Fold(fold, text), r.positions)
            && (r.score >= 1 ==> forall i :: 0 <= i < |r.positions| ==> r.positions[i] == r.positions[0] + i)
            && (r.score == 3 ==> r.positions[0] == 0)
            && (r.score == 2 ==> WordAt(text, r.positions[0]))
  {
    var text := ix.texts[idx];
    var q, low := Fold(fold, query), Fold(fold, text);
    TierMeaning(fold, q, text);
    match Rank(fold, query, text).value {
      case Prefix => ContiguousIsEmbedding(q, low, idx, 3, 0);
      case BoundarySubstring(s) => ContiguousIsEmbedding(q, low, idx, 2, s);
      case Substring(s) => ContiguousIsEmbedding(q, low, idx, 1, s);
      case Subsequence =>
        ScatteredPlaces(q, low);
    }
  }

  // Which of two comes first.

  /** Better placed in the text: at the front, else at the start of a word, else anywhere. */
  ghost predicate BetterText(fold: Folding, query: Str, x: Str, y: Str) {
    || (AtFront(fold, query, x) && !AtFront(fold, query, y))
    || (AtWord(fold, query, x) && !AtWord(fold, query, y))
    || (Inside(fold, query, x) && !Inside(fold, query, y))
  }

  ghost predicate SameText(fold: Folding, query: Str, x: Str, y: Str) {
    && AtFront(fold, query, x) == AtFront(fold, query, y)
    && AtWord(fold, query, x) == AtWord(fold, query, y)
    && Inside(fold, query, x) == Inside(fold, query, y)
  }

  lemma {:induction false} SameTextSameTier(fold: Folding, query: Str, x: Str, y: Str)
    requires query != [] && Matches(fold, query, x) && Matches(fold, query, y) && SameText(fold, query, x, y)
    ensures Score(Rank(fold, query, x).value) == Score(Rank(fold, query, y).value)
  {
    TiersAre(fold, query, x);
    TiersAre(fold, query, y);
  }

  // The directory, told from the uses.

  /** Some use counts for `d`. */
  ghost predicate UsedIn(uses: seq<Use>, d: Path) {
    exists i :: 0 <= i < |uses| && CountsFor(uses, i, d)
  }

  lemma {:induction false} UsedInIsTally(uses: seq<Use>, d: Path)
    ensures UsedIn(uses, d) <==> Tally(uses, d).Some?
  {
    TallyIsCount(uses, d);
    var s := Counted(uses, d, |uses|);
    if UsedIn(uses, d) {
      var i :| 0 <= i < |uses| && CountsFor(uses, i, d);
      assert i in s;
    }
  }

  /** `x` was used in an ancestor of `cwd` nearer to it than any `y` was used in. */
  ghost predicate Nearer(x: seq<Use>, y: seq<Use>, cwd: Path) {
    exists m :: 0 <= m <= |cwd| && UsedIn(x, cwd[..m]) && NotUsedFrom(y, cwd, m)
  }

  ghost predicate NotUsedFrom(uses: seq<Use>, cwd: Path, m: nat) {
    forall n :: m <= n <= |cwd| ==> !UsedIn(uses, cwd[..n])
  }

  lemma {:induction false} NearestAtLeast(uses: seq<Use>, cwd: Path, m: nat, n: nat)
    requires m <= n <= |cwd| && UsedIn(uses, cwd[..m])
    ensures NearestTally(uses, cwd, n).0 >= USIZE_MAX - (|cwd| - m)
  {
    UsedInIsTally(uses, cwd[..n]);
    if m < n {
      NearestAtLeast(uses, cwd, m, n - 1);
    }
  }

  lemma {:induction false} NearestBelow(uses: seq<Use>, cwd: Path, m: nat, n: nat)
    requires n <= |cwd| < USIZE_MAX && m <= |cwd| && NotUsedFrom(uses, cwd, m)
    ensures NearestTally(uses, cwd, n).0 < USIZE_MAX - (|cwd| - m)
  {
    UsedInIsTally(uses, cwd[..n]);
    if n > 0 {
      NearestBelow(uses, cwd, m, n - 1);
    }
  }

  lemma {:induction false} NearerIsGreater(x: seq<Use>, y: seq<Use>, cwd: Path)
    requires |cwd| < USIZE_MAX && Nearer(x, y, cwd)
    ensures NearestTally(x, cwd, |cwd|).0 > NearestTally(y, cwd, |cwd|).0
  {
    var m :| 0 <= m <= |cwd| && UsedIn(x, cwd[..m]) && NotUsedFrom(y, cwd, m);
    NearestAtLeast(x, cwd, m, |cwd|);
    NearestBelow(y, cwd, m, |cwd|);
  }

  // The whole history.

  ghost function SearchOf(h: History, fold: Folding, query: Str, cwd: Path, now: nat, limit: nat): seq<FuzzyMatch>
    requires h.Valid()
    reads h
  {
    HistoryIsSearchable(h);
    assert InRange(ViewOf(h), EntryIndices(h.latestOccurrences)) by {
      var all := EntryIndices(h.latestOccurrences);
      assert forall i :: 0 <= i < |all| ==> all[i] in all;
    }
    Shown(ViewOf(h), fold, query, Some(cwd), now, EntryIndices(h.latestOccurrences), limit)
  }

  ghost function UsesAt(h: History, x: nat): seq<Use>
    requires x < |h.commands|
    reads h
  {
    UsesOf(h.log, h.commands[x])
  }

  ghost predicate TwoMatches(h: History, fold: Folding, query: Str, x: nat, y: nat)
    reads h
  {
    x < |h.commands| && y < |h.commands| && Matches(fold, query, h.commands[x]) && Matches(fold, query, h.commands[y])
  }

  lemma {:induction false} SearchPrecedes(h: History, fold: Folding, query: Str, cwd: Path, now: nat, limit: nat, x: nat, y: nat)
    requires h.Valid() && TwoMatches(h, fold, query, x, y)
    requires ViewOf(h).Ok()
    requires Less(RankKeyOf(ViewOf(h), fold, query, Some(cwd), now, y), RankKeyOf(ViewOf(h), fold, query, Some(cwd), now, x))
    ensures Precedes(SearchOf(h, fold, query, cwd, now, limit), x, y)
  {
    HistoryIsSearchable(h);
    var all := EntryIndices(h.latestOccurrences);
    assert forall i :: 0 <= i < |all| ==> all[i] in all;
    GreaterKeyPrecedes(ViewOf(h), fold, query, Some(cwd), now, all, limit, x, y);
  }

  /** Of two matching commands the better placed one comes first. */
  lemma {:induction false} TextDecides(h: History, fold: Folding, query: Str, cwd: Path, now: nat, limit: nat, x: nat, y: nat)
    requires h.Valid() && query != [] && TwoMatches(h, fold, query, x, y)
    requires BetterText(fold, query, h.commands[x], h.commands[y])
    ensures Precedes(SearchOf(h, fold, query, cwd, now, limit), x, y)
  {
    HistoryIsSearchable(h);
    TiersAre(fold, query, h.commands[x]);
    TiersAre(fold, query, h.commands[y]);
    SearchPrecedes(h, fold, query, cwd, now, limit, x, y);
  }

  /** Of two equally placed commands the one used nearer to the working directory does. */
  lemma {:induction false} DirectoryDecides(h: History, fold: Folding, query: Str, cwd: Path, now: nat, limit: nat, x: nat, y: nat)
    requires h.Valid() && query != [] && TwoMatches(h, fold, query, x, y) && |cwd| < USIZE_MAX
    requires SameText(fold, query, h.commands[x], h.commands[y]) && Nearer(UsesAt(h, x), UsesAt(h, y), cwd)
    ensures Precedes(SearchOf(h, fold, query, cwd, now, limit), x, y)
  {
    HistoryIsSearchable(h);
    SameTextSameTier(fold, query, h.commands[x], h.commands[y]);
    h.UsageIsTally(x, cwd, cwd);
    h.UsageIsTally(y, cwd, cwd);
    NearerIsGreater(UsesAt(h, x), UsesAt(h, y), cwd);
    SearchPrecedes(h, fold, query, cwd, now, limit, x, y);
  }

  lemma {:induction false} UsageOutranks(x: Usage, y: Usage, now: nat)
    ensures x.count >= y.count && x.timestamp >= y.timestamp ==> UsageBonus(x, now) >= UsageBonus(y, now)
    ensures x.timestamp + HOUR >= now && y.timestamp + 720 * HOUR <= now ==> UsageBonus(x, now) > UsageBonus(y, now)
    ensures 1 <= y.count <= 512 && x.count >= 2 * y.count && now < x.timestamp + 2 * HOUR && now < y.timestamp + 2 * HOUR
            ==> UsageBonus(x, now) > UsageBonus(y, now)
  {
    BonusIsBounded(y, x, now);
    if 1 <= y.count <= 512 && x.count >= 2 * y.count && now < x.timestamp + 2 * HOUR && now < y.timestamp + 2 * HOUR {
      BonusSteps(y.count, now, now);
      BonusIsBounded(Usage(2 * y.count, now), Usage(x.count, now), now);
      SameHourSameBonus(y.count, y.timestamp, now);
      SameHourSameBonus(x.count, x.timestamp, now);
    }
  }

  lemma {:induction false} SameHourSameBonus(count: nat, time: nat, now: nat)
    requires now < time + 2 * HOUR
    ensures UsageBonus(Usage(count, time), now) == UsageBonus(Usage(count, now), now)
  {
  }

  /** Equally placed and equally near: used there at least as often and more recently comes
      first; so does used twice as often, both within two hours; used within the hour comes before not used for thirty days, however often; and
      used alike, the one used last anywhere comes first. */
  lemma {:induction false} UsageDecides(h: History, fold: Folding, query: Str, cwd: Path, now: nat, limit: nat, x: nat, y: nat)
    requires h.Valid() && query != [] && TwoMatches(h, fold, query, x, y)
    requires SameText(fold, query, h.commands[x], h.commands[y])
    requires var (nearX, usedX) := NearestTally(UsesAt(h, x), cwd, |cwd|);
             var (nearY, usedY) := NearestTally(UsesAt(h, y), cwd, |cwd|);
             && nearX == nearY
             && ((usedX.count >= usedY.count && usedX.timestamp > usedY.timestamp)
                 || (1 <= usedY.count <= 512 && usedX.count >= 2 * usedY.count
                     && now < usedX.timestamp + 2 * HOUR && now < usedY.timestamp + 2 * HOUR)
                 || (usedX.timestamp + HOUR >= now && usedY.timestamp + 720 * HOUR <= now)
                 || (usedX == usedY && LatestId(h.log, h.commands[x]) > LatestId(h.log, h.commands[y])))
    ensures Precedes(SearchOf(h, fold, query, cwd, now, limit), x, y)
  {
    HistoryIsSearchable(h);
    SameTextSameTier(fold, query, h.commands[x], h.commands[y]);
    h.UsageIsTally(x, cwd, cwd);
    h.UsageIsTally(y, cwd, cwd);
    UsageOutranks(NearestTally(UsesAt(h, x), cwd, |cwd|).1, NearestTally(UsesAt(h, y), cwd, |cwd|).1, now);
    assert EntryOk(h.log, h.commands[x], h.usages[x], DetailOf(h.directoryDetails, x), h.directoryPaths);
    assert EntryOk(h.log, h.commands[y], h.usages[y], DetailOf(h.directoryDetails, y), h.directoryPaths);
    SearchPrecedes(h, fold, query, cwd, now, limit, x, y);
  }

  lemma {:induction false} CommandWasUsed(log: seq<Occurrence>, command: Str)
    requires command in Commands(log)
    ensures UsesOf(log, command) != []
  {
    if log[|log| - 1].command != command {
      CommandWasUsed(log[..|log| - 1], command);
    }
  }

  /** With nothing typed, the command used later comes first. */
  lemma {:induction false} LastUseDecides(h: History, fold: Folding, cwd: Path, now: nat, limit: nat, x: nat, y: nat, i: nat)
    requires h.Valid() && x < |h.commands| && y < |h.commands| && i < |UsesAt(h, x)|
    requires forall j :: 0 <= j < |UsesAt(h, y)| ==> UsesAt(h, y)[j].timestamp < UsesAt(h, x)[i].timestamp
    ensures Precedes(SearchOf(h, fold, [], cwd, now, limit), x, y)
  {
    HistoryIsSearchable(h);
    h.UsageIsTally(x, cwd, cwd);
    h.UsageIsTally(y, cwd, cwd);
    TotalIsCount(UsesAt(h, x));
    TotalIsCount(UsesAt(h, y));
    CommandWasUsed(h.log, h.commands[y]);
    SearchPrecedes(h, fold, [], cwd, now, limit, x, y);
  }
}
