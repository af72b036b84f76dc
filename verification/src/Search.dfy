/** Ctrl+R search over a snapshot of the history (`search_limited`). */
module Search {
  import opened Text
  import opened Directories
  import opened Context
  import opened TopK
  import opened HistoryIndex
  import opened LatestTable
  import opened Tiers
  import Subsequence

  /** The part of the history a search reads. */
  datatype Index = Index(texts: seq<Str>, usages: seq<EntryUsage>, paths: seq<Path>, codes: map<Path, nat>,
                         details: map<nat, DirectoryDetail>)
  {
    function StoredOf(idx: nat): Stored
      requires idx < |usages|
    {
      StoredAt(usages[idx], DetailOf(details, idx))
    }

    ghost predicate EntryReady(i: nat)
      requires i < |texts| == |usages|
    {
      usages[i].letters == LetterMask(texts[i]) && StoredOf(i).Coded(|paths|)
    }

    /** What the index keeps true between searches. */
    ghost predicate Ok() {
      && |usages| == |texts|
      && Interned(paths, codes)
      && (forall i :: 0 <= i < |texts| ==> EntryReady(i))
      && (forall i, j :: 0 <= i < |texts| && 0 <= j < |texts| && i != j ==> Differ(i, j))
    }

    ghost predicate Differ(i: nat, j: nat)
      requires i < |texts| == |usages| && j < |texts|
    {
      usages[i].latestId != usages[j].latestId
    }
  }

  // Ranking keys.

  /** Text tier (or last use for an empty query), directory proximity, usage bonus,
      usage time, and the latest occurrence id, compared in that order. */
  datatype RankKey = RankKey(primary: nat, context: int, bonus: nat, time: nat, id: nat)

  predicate Less(a: RankKey, b: RankKey) {
    a.primary < b.primary || (a.primary == b.primary &&
    (a.context < b.context || (a.context == b.context &&
    (a.bonus < b.bonus || (a.bonus == b.bonus &&
    (a.time < b.time || (a.time == b.time && a.id < b.id)))))))
  }

  function Log2(n: nat): nat
    requires n > 0
  {
    if n == 1 then 0 else 1 + Log2(n / 2)
  }

  const HOUR: nat := 3_600_000

  /** A bounded bonus for frequent and for recent use. */
  function UsageBonus(usage: Usage, now: nat): nat {
    var log := Log2(if usage.count > 1 then usage.count else 1);
    var frequency := (if log < 10 then log else 10) * 2;
    var hours := (if now > usage.timestamp then now - usage.timestamp else 0) / HOUR;
    var recency := if hours <= 1 then 24 else if hours <= 23 then 20 else if hours <= 167 then 12
                   else if hours <= 719 then 4 else 0;
    frequency + recency
  }

  lemma {:induction false} Log2Grows(a: nat, b: nat)
    requires 0 < a <= b
    ensures Log2(a) <= Log2(b)
  {
    if a > 1 {
      Log2Grows(a / 2, b / 2);
    }
  }

  /** Old popularity cannot dominate: the bonus is at most 44, grows with use and
      recency, and the frequency part of it alone is worth less than a use this hour. */
  lemma {:induction false} BonusIsBounded(usage: Usage, other: Usage, now: nat)
    ensures UsageBonus(usage, now) <= 44
    ensures usage.count <= other.count && usage.timestamp <= other.timestamp ==>
              UsageBonus(usage, now) <= UsageBonus(other, now)
    ensures usage.timestamp + 720 * HOUR <= now && other.timestamp + HOUR >= now ==>
              UsageBonus(usage, now) < UsageBonus(other, now)
  {
    var a, b := if usage.count > 1 then usage.count else 1, if other.count > 1 then other.count else 1;
    if a <= b {
      Log2Grows(a, b);
    }
  }

  lemma {:induction false} Log2OfTwo(n: nat)
    requires n > 0
    ensures Log2(2 * n) == Log2(n) + 1 && Log2(2 * n + 1) == Log2(n) + 1
  {
  }

  lemma {:induction false} Log2UpTo(n: nat)
    requires n > 0
    ensures n < 1024 ==> Log2(n) < 10
    ensures n >= 1024 ==> Log2(n) >= 10
  {
    if n < 1024 {
      Log2Grows(n, 1023);
    } else {
      Log2Grows(1024, n);
    }
  }

  /** The bonus in steps: two for every doubling of the count up to 1024, and 24, 20, 12, 4
      or 0 for a use within two hours, a day, a week, thirty days or longer ago. */
  lemma {:induction false} BonusSteps(count: nat, time: nat, now: nat)
    ensures 1 <= count <= 512 ==> UsageBonus(Usage(2 * count, time), now) == UsageBonus(Usage(count, time), now) + 2
    ensures count >= 1024 ==> UsageBonus(Usage(count, time), now) == UsageBonus(Usage(1, time), now) + 20
    ensures UsageBonus(Usage(0, time), now) == UsageBonus(Usage(1, time), now)
            == if now < time + 2 * HOUR then 24 else if now < time + 24 * HOUR then 20
               else if now < time + 168 * HOUR then 12 else if now < time + 720 * HOUR then 4 else 0
  {
    if count > 0 {
      Log2OfTwo(count);
      Log2UpTo(count);
      Log2UpTo(2 * count);
    }
  }

  function RankKeyOf(ix: Index, fold: Folding, query: Str, cwd: Option<Path>, now: nat, idx: nat): RankKey
    requires idx < |ix.texts| == |ix.usages|
  {
    var rank := Rank(fold, query, ix.texts[idx]);
    var primary := if query == [] || rank.None? then ix.usages[idx].total.timestamp else Score(rank.value);
    var (context, usage) := ContextUsage(ix.StoredOf(idx), ix.codes, cwd);
    var bonus := if query == [] then 0 else UsageBonus(usage, now);
    RankKey(primary, context, bonus, usage.timestamp, ix.usages[idx].latestId)
  }

  /** The key of every entry. */
  function Keys(ix: Index, fold: Folding, query: Str, cwd: Option<Path>, now: nat): (keys: seq<RankKey>)
    requires |ix.texts| == |ix.usages|
    ensures |keys| == |ix.texts|
    ensures forall i :: 0 <= i < |keys| ==> keys[i] == RankKeyOf(ix, fold, query, cwd, now, i)
  {
    seq(|ix.texts|, i requires 0 <= i < |ix.texts| => RankKeyOf(ix, fold, query, cwd, now, i))
  }

  /** Entries ordered by their keys. */
  function OrderOf(keys: seq<RankKey>): Order {
    (i: nat, j: nat) => i < |keys| && j < |keys| && Less(keys[i], keys[j])
  }

  lemma {:induction false} LessIsTransitive(a: RankKey, b: RankKey, c: RankKey)
    requires Less(a, b) && Less(b, c)
    ensures Less(a, c)
  {
  }

  /** Distinct latest ids make the keys a strict total order. */
  lemma {:induction false} KeysAreOrdered(ix: Index, fold: Folding, query: Str, cwd: Option<Path>, now: nat)
    requires ix.Ok()
    ensures IsOrder(OrderOf(Keys(ix, fold, query, cwd, now)), |ix.texts|)
  {
    var keys := Keys(ix, fold, query, cwd, now);
    var lt := OrderOf(keys);
    forall i, j | 0 <= i < |keys| && 0 <= j < |keys| && i != j
      ensures Comparable(lt, i, j)
    {
      assert ix.Differ(i, j);
    }
    forall i, j, k | 0 <= i < |keys| && 0 <= j < |keys| && 0 <= k < |keys| && lt(i, j) && lt(j, k)
      ensures lt(i, k)
    {
      LessIsTransitive(keys[i], keys[j], keys[k]);
    }
  }

  // The ranking vector.

  datatype Ranked = Ranked(key: RankKey, idx: nat)

  function Entries(ranking: seq<Ranked>): (top: seq<nat>)
    ensures |top| == |ranking| && forall i :: 0 <= i < |top| ==> top[i] == ranking[i].idx
  {
    seq(|ranking|, i requires 0 <= i < |ranking| => ranking[i].idx)
  }

  ghost predicate Keyed(keys: seq<RankKey>, ranking: seq<Ranked>) {
    forall i :: 0 <= i < |ranking| ==> ranking[i].idx < |keys| && ranking[i].key == keys[ranking[i].idx]
  }

  /** `ranking.partition_point(|existing| existing.0 > key)`. */
  function PartitionPoint(ranking: seq<Ranked>, key: RankKey): (p: nat)
    ensures p <= |ranking|
  {
    if ranking == [] || !Less(key, ranking[0].key) then 0 else 1 + PartitionPoint(ranking[1..], key)
  }

  lemma {:induction false} PartitionIsPosition(keys: seq<RankKey>, ranking: seq<Ranked>, x: nat)
    requires Keyed(keys, ranking) && x < |keys|
    ensures PartitionPoint(ranking, keys[x]) == Position(OrderOf(keys), Entries(ranking), x)
  {
    if ranking != [] {
      PartitionIsPosition(keys, ranking[1..], x);
      assert Entries(ranking)[1..] == Entries(ranking[1..]);
    }
  }

  /** The ranking holds the best of the candidates seen so far, `s`. */
  ghost predicate RankingOk(keys: seq<RankKey>, ranking: seq<Ranked>, s: set<nat>, limit: nat) {
    && IsOrder(OrderOf(keys), |keys|) && Within(s, |keys|) && Keyed(keys, ranking)
    && Entries(ranking) == Best(OrderOf(keys), |keys|, s, limit)
  }

  /** Rejecting a candidate no better than the worst of a full ranking. */
  lemma {:induction false} RejectKeepsRanking(keys: seq<RankKey>, ranking: seq<Ranked>, s: set<nat>, limit: nat, x: nat)
    requires RankingOk(keys, ranking, s, limit) && x < |keys| && x !in s
    requires 0 < limit == |ranking| && !Less(ranking[limit - 1].key, keys[x])
    ensures RankingOk(keys, ranking, s + {x}, limit)
  {
    RejectKeepsBest(OrderOf(keys), |keys|, s, limit, x);
  }

  lemma {:induction false} EntriesOfInsert(ranking: seq<Ranked>, p: nat, r: Ranked)
    requires p <= |ranking|
    ensures Entries(Insert(ranking, p, r)) == Insert(Entries(ranking), p, r.idx)
  {
  }

  /** A full ranking without its worst. */
  function Popped(ranking: seq<Ranked>, limit: nat): seq<Ranked>
    requires limit > 0
  {
    if |ranking| == limit then ranking[..limit - 1] else ranking
  }

  lemma {:induction false} EntriesOfPopped(ranking: seq<Ranked>, limit: nat)
    requires limit > 0 && |ranking| <= limit
    ensures Entries(Popped(ranking, limit)) == Take(Entries(ranking), limit - 1)
  {
  }

  lemma {:induction false} InsertKeyed(keys: seq<RankKey>, ranking: seq<Ranked>, p: nat, r: Ranked)
    requires Keyed(keys, ranking) && p <= |ranking| && r.idx < |keys| && r.key == keys[r.idx]
    ensures Keyed(keys, Insert(ranking, p, r))
  {
  }

  lemma {:induction false} PoppedKeyed(keys: seq<RankKey>, ranking: seq<Ranked>, limit: nat)
    requires Keyed(keys, ranking) && limit > 0
    ensures Keyed(keys, Popped(ranking, limit))
  {
  }

  lemma {:induction false} InsertKeepsEntries(lt: Order, n: nat, ranking: seq<Ranked>, s: set<nat>, limit: nat, p: nat,
                                              r: Ranked)
    requires IsOrder(lt, n) && Within(s, n) && r.idx < n && r.idx !in s && limit > 0
    requires Entries(ranking) == Best(lt, n, s, limit) && p == Position(lt, Entries(ranking), r.idx)
    requires |ranking| == limit ==> lt(ranking[limit - 1].idx, r.idx)
    ensures p <= |Popped(ranking, limit)|
    ensures Entries(Insert(Popped(ranking, limit), p, r)) == Best(lt, n, s + {r.idx}, limit)
  {
    BestDescends(lt, n, s, limit);
    InsertKeepsBest(lt, n, s, limit, r.idx);
    EntriesOfPopped(ranking, limit);
    EntriesOfInsert(Popped(ranking, limit), p, r);
  }

  /** Popping the worst of a full ranking and inserting at the partition point. */
  lemma {:induction false} InsertKeepsRanking(keys: seq<RankKey>, ranking: seq<Ranked>, s: set<nat>, limit: nat, x: nat)
    requires RankingOk(keys, ranking, s, limit) && x < |keys| && x !in s && limit > 0
    requires |ranking| == limit ==> Less(ranking[limit - 1].key, keys[x])
    ensures PartitionPoint(ranking, keys[x]) <= |Popped(ranking, limit)|
    ensures RankingOk(keys, Insert(Popped(ranking, limit), PartitionPoint(ranking, keys[x]), Ranked(keys[x], x)),
                      s + {x}, limit)
  {
    var p, r := PartitionPoint(ranking, keys[x]), Ranked(keys[x], x);
    PartitionIsPosition(keys, ranking, x);
    InsertKeepsEntries(OrderOf(keys), |keys|, ranking, s, limit, p, r);
    PoppedKeyed(keys, ranking, limit);
    InsertKeyed(keys, Popped(ranking, limit), p, r);
  }

  // Results.

  /** `positions` are `match_positions[..match_count]`. */
  datatype FuzzyMatch = FuzzyMatch(entry: nat, positions: seq<nat>, score: nat)

  function Contiguous(entry: nat, score: nat, start: nat, len: nat): FuzzyMatch {
    FuzzyMatch(entry, seq(if len < 32 then len else 32, i => start + i), score)
  }

  /** `materialize_match`, on the folded query and the folded text. */
  function Materialize(rank: MatchRank, entry: nat, query: Str, low: Str): FuzzyMatch {
    match rank
    case Empty => Contiguous(entry, 0, 0, 0)
    case Prefix => Contiguous(entry, 3, 0, |query|)
    case BoundarySubstring(start) => Contiguous(entry, 2, start, |query|)
    case Substring(start) => Contiguous(entry, 1, start, |query|)
    case Subsequence =>
      var at := Subsequence.Match(query, low);
      FuzzyMatch(entry, if at.Some? then at.value else [], 0)
  }

  /** The result for a matching entry. */
  function Result(ix: Index, fold: Folding, query: Str, idx: nat): FuzzyMatch
    requires idx < |ix.texts| && Matches(fold, query, ix.texts[idx])
  {
    Materialize(Rank(fold, query, ix.texts[idx]).value, idx, Fold(fold, query), Fold(fold, ix.texts[idx]))
  }

  ghost predicate AllMatch(ix: Index, fold: Folding, query: Str, top: seq<nat>) {
    forall i :: 0 <= i < |top| ==> top[i] < |ix.texts| && Matches(fold, query, ix.texts[top[i]])
  }

  function Results(ix: Index, fold: Folding, query: Str, top: seq<nat>): seq<FuzzyMatch>
    requires AllMatch(ix, fold, query, top)
  {
    if top == [] then []
    else Results(ix, fold, query, top[..|top| - 1]) + [Result(ix, fold, query, top[|top| - 1])]
  }

  /** The candidates that match, in their order. */
  function Matched(ix: Index, fold: Folding, query: Str, candidates: seq<nat>): (r: seq<nat>)
    requires InRange(ix, candidates)
  {
    if candidates == [] then []
    else
      var last := candidates[|candidates| - 1];
      Matched(ix, fold, query, candidates[..|candidates| - 1]) +
      (if Matches(fold, query, ix.texts[last]) then [last] else [])
  }

  predicate InRange(ix: Index, candidates: seq<nat>) {
    forall i :: 0 <= i < |candidates| ==> candidates[i] < |ix.texts|
  }

  ghost predicate Distinct(candidates: seq<nat>) {
    forall i, j :: 0 <= i < j < |candidates| ==> candidates[i] != candidates[j]
  }

  /** The entries among `candidates` that match. */
  ghost function MatchSet(ix: Index, fold: Folding, query: Str, candidates: seq<nat>): set<nat>
    requires InRange(ix, candidates)
  {
    set x | x in candidates && Matches(fold, query, ix.texts[x])
  }

  lemma {:induction false} MatchedMembers(ix: Index, fold: Folding, query: Str, candidates: seq<nat>)
    requires InRange(ix, candidates)
    ensures forall x :: x in Matched(ix, fold, query, candidates) <==> x in MatchSet(ix, fold, query, candidates)
  {
    if candidates != [] {
      var front := candidates[..|candidates| - 1];
      MatchedMembers(ix, fold, query, front);
      assert candidates == front + [candidates[|candidates| - 1]];
    }
  }

  /** The definition of a search: the best `limit` of the matching candidates. */
  ghost function Shown(ix: Index, fold: Folding, query: Str, cwd: Option<Path>, now: nat, candidates: seq<nat>,
                       limit: nat): seq<FuzzyMatch>
    requires ix.Ok() && InRange(ix, candidates)
  {
    KeysAreOrdered(ix, fold, query, cwd, now);
    var order := OrderOf(Keys(ix, fold, query, cwd, now));
    var s := MatchSet(ix, fold, query, candidates);
    BestDescends(order, |ix.texts|, s, limit);
    var top := Best(order, |ix.texts|, s, limit);
    assert forall i :: 0 <= i < |top| ==> top[i] in top;
    Results(ix, fold, query, top)
  }

  /** Only the set of matching candidates matters: neither their order nor the
      candidates that do not match. */
  lemma {:induction false} ShownDependsOnMatches(ix: Index, fold: Folding, query: Str, cwd: Option<Path>, now: nat,
                                                 a: seq<nat>, b: seq<nat>, limit: nat)
    requires ix.Ok() && InRange(ix, a) && InRange(ix, b)
    requires MatchSet(ix, fold, query, a) == MatchSet(ix, fold, query, b)
    ensures Shown(ix, fold, query, cwd, now, a, limit) == Shown(ix, fold, query, cwd, now, b, limit)
  {
  }

  // The search.

  /** The rank of a selected candidate, without the letter filter. */
  function SelectedRank(fold: Folding, query: Str, text: Str): Option<MatchRank> {
    if query == [] then Some(Empty)
    else if IsShortAscii(query) && IsAscii(text) then RankMatchAscii(Fold(AsciiLower, query), text)
    else RankMatch(fold, Fold(fold, query), text)
  }

  lemma {:induction false} SelectedRankIsRank(fold: Folding, query: Str, text: Str)
    requires FoldsAscii(fold)
    ensures SelectedRank(fold, query, text) == Rank(fold, query, text)
  {
    if query != [] && IsShortAscii(query) && IsAscii(text) {
      FoldAscii(fold, query);
      AsciiRankAgrees(fold, Fold(fold, query), text);
    }
  }

  /** `materialize_match`: `chars` is the query folded by Unicode rules, when some
      candidate already needed it. */
  method MaterializeMatch(rank: MatchRank, entry: nat, text: Str, query: Str, fold: Folding, chars: Option<Str>)
    returns (r: FuzzyMatch)
    requires FoldsAscii(fold)
    requires if chars.Some? then chars.value == Fold(fold, query) else rank.Empty? || (IsAscii(query) && IsAscii(text))
    ensures r == Materialize(rank, entry, Fold(fold, query), Fold(fold, text))
  {
    if rank.Subsequence? {
      var at;
      if chars.None? {
        FoldAscii(fold, query);
        FoldAscii(fold, text);
        at := Subsequence.SubsequenceMatch(Fold(AsciiLower, query), text, AsciiLower);
      } else {
        at := Subsequence.SubsequenceMatch(chars.value, text, fold);
      }
      return FuzzyMatch(entry, if at.Some? then at.value else [], 0);
    }
    var len := if chars.Some? then |chars.value| else |query|;
    match rank
    case Empty => return Contiguous(entry, 0, 0, 0);
    case Prefix => return Contiguous(entry, 3, 0, len);
    case BoundarySubstring(start) => return Contiguous(entry, 2, start, len);
    case Substring(start) => return Contiguous(entry, 1, start, len);
  }

  /** Ranks one matching candidate: early rejection on the text tier alone, then on
      the whole key, then insertion. */
  method Offer(ix: Index, fold: Folding, query: Str, cwd: Option<Path>, now: nat, limit: nat, idx: nat, primary: nat,
               ranking: seq<Ranked>, ghost keys: seq<RankKey>, ghost s: set<nat>) returns (next: seq<Ranked>)
    requires ix.Ok() && keys == Keys(ix, fold, query, cwd, now) && limit > 0
    requires idx < |keys| && idx !in s && primary == keys[idx].primary
    requires RankingOk(keys, ranking, s, limit)
    ensures RankingOk(keys, next, s + {idx}, limit)
  {
    BestDescends(OrderOf(keys), |keys|, s, limit);
    if |ranking| == limit && primary < ranking[limit - 1].key.primary {
      RejectKeepsRanking(keys, ranking, s, limit, idx);
      return ranking;
    }
    assert ix.EntryReady(idx);
    var nearest := FindContextUsage(ix.StoredOf(idx), ix.paths, ix.codes, cwd);
    var (context, usage) := nearest;
    var bonus := if query == [] then 0 else UsageBonus(usage, now);
    var key := RankKey(primary, context, bonus, usage.timestamp, ix.usages[idx].latestId);
    assert key == keys[idx];
    if |ranking| == limit && !Less(ranking[limit - 1].key, key) {
      RejectKeepsRanking(keys, ranking, s, limit, idx);
      return ranking;
    }
    InsertKeepsRanking(keys, ranking, s, limit, idx);
    next := Insert(Popped(ranking, limit), PartitionPoint(ranking, key), Ranked(key, idx));
  }

  lemma {:induction false} OneMoreCandidate(ix: Index, fold: Folding, query: Str, candidates: seq<nat>, k: nat)
    requires InRange(ix, candidates) && Distinct(candidates) && k < |candidates|
    ensures InRange(ix, candidates[..k]) && InRange(ix, candidates[..k + 1])
    ensures var idx := candidates[k];
            var before, after := candidates[..k], candidates[..k + 1];
            if Matches(fold, query, ix.texts[idx]) then
              && idx !in MatchSet(ix, fold, query, before)
              && MatchSet(ix, fold, query, after) == MatchSet(ix, fold, query, before) + {idx}
              && Matched(ix, fold, query, after) == Matched(ix, fold, query, before) + [idx]
            else
              && MatchSet(ix, fold, query, after) == MatchSet(ix, fold, query, before)
              && Matched(ix, fold, query, after) == Matched(ix, fold, query, before)
  {
    assert candidates[..k + 1] == candidates[..k] + [candidates[k]];
    assert candidates[..k + 1][..k] == candidates[..k];
  }

  /** The scan of `search_limited`: every matching candidate, and the ranking. */
  method ScanCandidates(ix: Index, fold: Folding, query: Str, candidates: seq<nat>, limit: nat, cwd: Option<Path>, now: nat)
    returns (matched: seq<nat>, ranking: seq<Ranked>, chars: Option<Str>)
    requires ix.Ok() && FoldsAscii(fold) && InRange(ix, candidates) && Distinct(candidates)
    ensures matched == Matched(ix, fold, query, candidates)
    ensures RankingOk(Keys(ix, fold, query, cwd, now), ranking, MatchSet(ix, fold, query, candidates), limit)
    ensures chars.Some? ==> chars.value == Fold(fold, query)
    ensures chars.None? ==> IsShortAscii(query)
  {
    var isAscii := IsShortAscii(query);
    chars := if isAscii then None else Some(Fold(fold, query));
    matched, ranking := [], [];
    ghost var keys := Keys(ix, fold, query, cwd, now);
    KeysAreOrdered(ix, fold, query, cwd, now);
    assert candidates[..0] == [];
    for k := 0 to |candidates|
      invariant InRange(ix, candidates[..k]) && matched == Matched(ix, fold, query, candidates[..k])
      invariant RankingOk(keys, ranking, MatchSet(ix, fold, query, candidates[..k]), limit)
      invariant chars.Some? ==> chars.value == Fold(fold, query)
      invariant chars.None? ==> isAscii
    {
      var idx := candidates[k];
      var text := ix.texts[idx];
      OneMoreCandidate(ix, fold, query, candidates, k);
      assert ix.EntryReady(idx);
      CandidateRankIsRank(fold, query, text);
      var rank := CandidateRank(fold, query, text, ix.usages[idx].letters);
      if query != [] && !(isAscii && IsAscii(text)) {
        chars := Some(Fold(fold, query));
      }
      if rank.Some? {
        matched := matched + [idx];
        if limit > 0 {
          var primary := if query == [] then ix.usages[idx].total.timestamp else Score(rank.value);
          ranking := Offer(ix, fold, query, cwd, now, limit, idx, primary, ranking, keys,
                           MatchSet(ix, fold, query, candidates[..k]));
        }
      }
    }
    assert candidates[..|candidates|] == candidates;
  }

  lemma {:induction false} RankingMatches(ix: Index, fold: Folding, query: Str, cwd: Option<Path>, now: nat,
                                          candidates: seq<nat>, limit: nat, ranking: seq<Ranked>)
    requires ix.Ok() && InRange(ix, candidates)
    requires RankingOk(Keys(ix, fold, query, cwd, now), ranking, MatchSet(ix, fold, query, candidates), limit)
    ensures AllMatch(ix, fold, query, Entries(ranking))
    ensures Results(ix, fold, query, Entries(ranking)) == Shown(ix, fold, query, cwd, now, candidates, limit)
  {
    var keys := Keys(ix, fold, query, cwd, now);
    var top := Entries(ranking);
    BestDescends(OrderOf(keys), |keys|, MatchSet(ix, fold, query, candidates), limit);
    assert forall i :: 0 <= i < |top| ==> top[i] in top;
  }

  /** One selected candidate; the Unicode form of the query is made when first needed. */
  method MaterializeOne(ix: Index, fold: Folding, query: Str, idx: nat, known: Option<Str>)
    returns (result: FuzzyMatch, chars: Option<Str>)
    requires FoldsAscii(fold) && idx < |ix.texts| && Matches(fold, query, ix.texts[idx])
    requires known.Some? ==> known.value == Fold(fold, query)
    requires known.None? ==> IsShortAscii(query)
    ensures result == Result(ix, fold, query, idx)
    ensures chars.Some? ==> chars.value == Fold(fold, query)
    ensures chars.None? ==> IsShortAscii(query)
  {
    chars := known;
    var text := ix.texts[idx];
    if query != [] && !(IsShortAscii(query) && IsAscii(text)) {
      chars := Some(Fold(fold, query));
    }
    SelectedRankIsRank(fold, query, text);
    var rank := SelectedRank(fold, query, text);
    result := MaterializeMatch(rank.value, idx, text, query, fold, chars);
  }

  /** The results of a ranking: positions are built for the selected few only. */
  method MaterializeAll(ix: Index, fold: Folding, query: Str, ranking: seq<Ranked>, known: Option<Str>)
    returns (results: seq<FuzzyMatch>)
    requires FoldsAscii(fold) && AllMatch(ix, fold, query, Entries(ranking))
    requires known.Some? ==> known.value == Fold(fold, query)
    requires known.None? ==> IsShortAscii(query)
    ensures results == Results(ix, fold, query, Entries(ranking))
  {
    var chars := known;
    ghost var top := Entries(ranking);
    results := [];
    for k := 0 to |ranking|
      invariant AllMatch(ix, fold, query, top[..k]) && results == Results(ix, fold, query, top[..k])
      invariant chars.Some? ==> chars.value == Fold(fold, query)
      invariant chars.None? ==> IsShortAscii(query)
    {
      assert top[..k + 1][..k] == top[..k];
      var result;
      result, chars := MaterializeOne(ix, fold, query, ranking[k].idx, chars);
      results := results + [result];
    }
    assert top[..|top|] == top;
  }

  /** `search_limited`: exactly the `limit` greatest keys among the matching candidates,
      greatest first, and every matching candidate in order, whatever the limit. */
  method SearchLimited(ix: Index, fold: Folding, query: Str, candidates: seq<nat>, limit: nat, cwd: Option<Path>, now: nat)
    returns (matched: seq<nat>, results: seq<FuzzyMatch>)
    requires ix.Ok() && FoldsAscii(fold) && InRange(ix, candidates) && Distinct(candidates)
    ensures matched == Matched(ix, fold, query, candidates)
    ensures results == Shown(ix, fold, query, cwd, now, candidates, limit)
  {
    var ranking, chars;
    matched, ranking, chars := ScanCandidates(ix, fold, query, candidates, limit, cwd, now);
    RankingMatches(ix, fold, query, cwd, now, candidates, limit, ranking);
    results := MaterializeAll(ix, fold, query, ranking, chars);
  }

  // The history as an index.

  ghost function ViewOf(h: History): Index
    reads h
  {
    Index(h.commands, h.usages, h.directoryPaths, h.directoryCodes, h.directoryDetails)
  }

  /** A valid history is ready to search, and its latest-occurrence table lists every
      entry exactly once. */
  lemma {:induction false} HistoryIsSearchable(h: History)
    requires h.Valid()
    ensures ViewOf(h).Ok()
    ensures Distinct(EntryIndices(h.latestOccurrences))
    ensures forall x :: x in EntryIndices(h.latestOccurrences) <==> 0 <= x < |h.commands|
  {
    var ix := ViewOf(h);
    forall i | 0 <= i < |h.commands|
      ensures ix.EntryReady(i) && h.usages[i].latestId > 0
    {
      assert EntryOk(h.log, h.commands[i], h.usages[i], DetailOf(h.directoryDetails, i), h.directoryPaths);
      LatestIdWithin(h.log, h.lastId, h.commands[i]);
    }
    forall i, j | 0 <= i < |h.commands| && 0 <= j < |h.commands| && i != j
      ensures ix.Differ(i, j)
    {
      if h.usages[i].latestId == h.usages[j].latestId {
        SameIdSameEntry(h.latestOccurrences, Ids(h.usages), i, j);
        assert false;
      }
    }
    EntryIndicesAreAll(h.latestOccurrences, Ids(h.usages));
  }
}
