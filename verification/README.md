# Verified models of ish's stateful cores

`ish` is an interactive shell. Five of its components keep state that a fast or fragile
implementation must hold in agreement with a simple specification. This project models each
of them in Dafny, in the form the source has (classes and loops where the source changes
things in place, functions where it computes), and proves the agreement for every input,
every run and every interleaving.

- **History index and Ctrl+R search** (`Text`, `WordScan`, `Matching`, `Subsequence`,
  `Tiers`, `TopK`, `Directories`, `Context`, `LatestTable`, `SessionList`, `Tallies`,
  `HistoryIndex`, `Search`, `Ranking`, `HistorySearch`, `LineLaws`). The class `History` is
  tied to a ghost log of the occurrences applied: whatever the hash function, its tables answer
  as the log does. `SearchLimited` returns the greatest keys among all matches although it
  prunes, prefilters and scans eight bytes at a time; `Ranking` tells their order from the texts
  and the log. The class `HistorySearch` refines matches per keystroke and shows, after any run
  of edits, what a fresh search of everything would.
- **denv environment layers** (`Bytes`, `Variables`, `EnvDiff`, `ActiveRecord`, `OldRecords`,
  `EnvLayer`, `Denv`, `LayerFiles`). Taking off the active layer always gives back the store
  that lay under it, over any run of refreshes and user edits; a layer is only ever kept for the
  files it came from; the record on disk always reads back as the layer in memory; a failed
  refresh changes nothing.
- **Capture relay input pump** (`Capture`). The trace of reads, accepted bytes and signals is
  a run of an ideal pump that holds exactly `input_tail`, whatever the kernel answers.
- **Foreground event channel** (`Foreground`, `Draining`). A state machine of any number of
  producer threads and one consumer; snapshots never decrease, nothing is lost, no wake-up is missed,
  and every run can finish with a drain that delivers the field-wise maximum.
- **Completion quoting** (`Quoting`, `QuoteLaws`). The tokenizer and the word scan read back
  what the completion inserts.

Four promises turned out to hold only under a condition. Each has an input that
breaks it and a theorem that gives the condition exactly:

- `needs_quoting` does not list the newline, on which `find_comp_word_start` splits. The word
  start survives an insertion if and only if the text was quoted or holds no newline
  (`WordStartIsStable`, `BareNewlineMovesTheStart`).
- `shell_tokens` keeps a newline inside a word, where `find_comp_word_start` starts a new
  one. A completion adds exactly one token to the line if and only if its word does not start
  just after a newline (`CompletionAddsOneToken`, `NewlineJoinsTheWords`).
- A lone `.env` skips entries equal to the current environment one by one. The result is the
  last-wins update if and only if no key's last entry reverts an earlier different one to the
  environment's value (`DotenvOnlyIsLastWins`, `RevertedKeyKeepsTheEarlierValue`).
- An unforced refresh trusts `__DENV_STATE` (`StateIsTrusted`). A link pointed elsewhere, to
  files of the same times, keeps the layer of the old place; a layer ends up under other files
  if and only if that variable matches while the record's directory has moved
  (`BelongsUnlessMoved`). On one unchanging file tree that never happens
  (`LayerBelongsToItsFiles`).

`OutputBuffer`'s truncation flag is exact unless the whole output was one chunk of exactly
the limit (`FlagIsExact`).

Conventions: a string is a sequence of Unicode scalar values (`Text`) or bytes (`Bytes`);
errors are `None`; what the program learns from outside (the clock, the hash function, the
Unicode lowercase table, files, evaluation, kernel answers, polls) is a parameter or an
arbitrary choice.

`dafny verify dfyconfig.toml` checks the whole project.

## Model

| member | source | states |
|---|---|---|
| `WordScan.SubIsWrapping` | src/history.rs:1184-1186 | Byte-by-byte subtraction with borrow, the model of the word trick, is wrapping subtraction of the word of ones as a number |
| `WordScan.BorrowSetsFalseFlags` | src/history.rs:1180-1186 | The borrow really does flag a byte that is not zero, above a true hit |
| `WordScan.FlagsAreExactUpToTheFirst` | src/history.rs:1180-1208 | Up to and including the first equal byte every flag is exact |
| `WordScan.FindEitherByte` | src/history.rs:1188-1208 | Returns the first index holding either byte, or none when neither occurs |
| `Matching.FirstStartIsFirst` | src/history.rs:1012-1060 | The specification of a substring search is the least start that matches, or none |
| `Matching.FindSubstring` | src/history.rs:1012-1060 | Testing every start, with and without the boundary condition, finds the least one |
| `Matching.NextCandidate` | src/history.rs:1062-1092 | Jumping to the next occurrence of the first byte skips no match |
| `Matching.FindSubstringAsciiBytes` | src/history.rs:1062-1092 | The jump-scanning search equals testing every start |
| `Matching.GreedyIsEarliest` | src/history.rs:1213-1230 | No embedding is ahead of the greedy placement at any character |
| `Matching.SubsequenceIsEmbedding` | src/history.rs:1213-1230 | The subsequence test succeeds exactly when some strictly increasing embedding exists |
| `Matching.IsSubsequenceAsciiBytes` | src/history.rs:1210-1230 | The word-scanning prefilter equals the subsequence test |
| `Subsequence.MatchSucceeds` | src/history.rs:1099-1110 | The matcher succeeds exactly when an embedding exists |
| `Subsequence.FirstEndIsEarliest` | src/history.rs:1113-1132 | The forward pass ends no later than any embedding |
| `Subsequence.BackwardIsLatest` | src/history.rs:1295-1319 | The backward scan from an end gives the latest start of any embedding with that end, and is one |
| `Subsequence.PlacementIsEmbedding` | src/history.rs:1232-1293 | The positions are an embedding inside the chosen window, from its first index on |
| `Subsequence.WindowStartIsLatest` | src/history.rs:1232-1293 | No embedding that ends within the window starts after it |
| `Subsequence.WindowIsNarrowest` | src/history.rs:1232-1293 | The window is no wider than that of either endpoint tried |
| `Subsequence.WindowBeatsEndpoints` | src/history.rs:1232-1293 | The window is no wider than any embedding that ends as early as any can, nor than any that ends at the last occurrence of the last character |
| `Subsequence.MatchIsEmbedding` | src/history.rs:1232-1293 | What is returned is an embedding inside the window, or for more than 32 characters the first 32 places of one |
| `Subsequence.SubsequenceMatch` | src/history.rs:1099-1392 | The loops compute that placement, for ASCII bytes and for characters |
| `Tiers.AsciiRankAgrees` | src/history.rs:925-946 | The ASCII ranking gives the same tier and start as the general one |
| `Tiers.TierMeaning` | src/history.rs:909-923 | Each tier says exactly which kind of match exists and which better ones do not |
| `Tiers.RankedExactlyWhenEmbedded` | src/history.rs:909-923 | A text is ranked exactly when the query embeds in it |
| `Tiers.PrefilterIsSound` | src/history.rs:92-101 | The letter mask never rejects a text the query embeds in |
| `Tiers.PrefilterRejects` | src/history.rs:92-101 | It rejects every text that lacks a letter of the query |
| `Tiers.CandidateRankIsRank` | src/history.rs:616-643 | Prefilter, ASCII path and general path together give the plain rank |
| `Tiers.LongerQueriesMatchLess` | src/history.rs:909-923 | A longer query matches no text that a prefix of it does not |
| `TopK.BestIsFull` | src/history.rs:587-685 | The specification of a limited result has as many elements as the limit and the set allow |
| `TopK.BestDescends` | src/history.rs:587-685 | It is strictly descending and drawn from the set |
| `TopK.LeftOutIsSmaller` | src/history.rs:587-685 | Everything left out is smaller than everything kept |
| `TopK.BestOfOneMore` | src/history.rs:656-665 | One more element is a cut insertion |
| `Directories.AncestorDistanceIsExact` | src/history.rs:811-817 | The byte-prefix test is exact: the distance is that of the path components |
| `Directories.TallyOfAppend` | src/history.rs:325-402 | What one more use does to the direct tally, including the uses credited to a command's first directory |
| `Directories.RecordedRepresents` | src/history.rs:322-365 | Recording keeps every lookup equal to the tally, through all representation changes |
| `Directories.DetachedRepresents` | src/history.rs:367-378 | So does a use without a directory |
| `Tallies.TallyIsCount` | src/history.rs:73-78 | A tally exists exactly when some use counts for the directory; it is the number of those uses, up to the greatest `u64`, and the time of the latest |
| `Tallies.TotalIsCount` | src/history.rs:73-78 | The total is the number of all uses, up to the greatest `u64`, and the time of the latest |
| `Tallies.CreditIs` | src/history.rs:325-378 | A use counts for its own directory; one without a directory, before any was known, for the first directory after it; any other for none |
| `Context.OneDirectoryPerDistance` | src/history.rs:709-764 | At most one recorded directory lies at each distance above the working directory |
| `Context.WalkAncestors` | src/history.rs:709-764 | Walking the ancestors finds the nearest recorded directory |
| `Context.ScanFindsNearest` | src/history.rs:712-764 | Scanning the recorded directories in any map order finds the same one |
| `Context.FindContextUsage` | src/history.rs:712-764 | Distance and usage are the same whichever strategy is chosen |
| `Context.NearestIsFromUses` | src/history.rs:712-764 | They are those of the nearest ancestor that has a direct tally |
| `LatestTable.ForgetRemoves` | src/history.rs:271-275 | Forgetting removes exactly the row with the id and keeps the order |
| `LatestTable.RecordAdds` | src/history.rs:261-269 | Recording a fresh id adds exactly one row and keeps the order |
| `LatestTable.MoveRow` | src/history.rs:248-275 | A new occurrence keeps exactly one row per entry |
| `LatestTable.EntryIndicesAreAll` | src/history.rs:544-547 | The listing for a search has every entry exactly once |
| `SessionList.TombstoneRemoves` | src/history.rs:277-292 | A tombstone removes one entry from the plain list |
| `SessionList.RememberMovesToEnd` | src/history.rs:277-292 | On the plain list, remembering is moving to the end |
| `SessionList.RememberKeepsPlaced` | src/history.rs:277-292 | Stored positions stay exact |
| `SessionList.CompactedIsPlaced` | src/history.rs:294-309 | Compaction leaves the plain list itself, with exact positions |
| `SessionList.SessionGet` | src/history.rs:513-520 | Recall by skip reads the plain list from its end |
| `HistoryIndex.History.FindEntryIndex` | src/history.rs:798-806 | Lookup through the hash index, under any hash function, equals a linear search |
| `HistoryIndex.History.RecordDirectory` | src/history.rs:322-365 | Updates one entry's lookups as the tally requires and touches no other entry |
| `HistoryIndex.History.DetachSharedDirectory` | src/history.rs:367-378 | Splits a shared total from its directory before a use without one |
| `HistoryIndex.History.ApplyOccurrence` | src/history.rs:219-258 | Appends one occurrence to the log and keeps the whole invariant: unique texts, usage equal to the tally, one sorted row per entry, latest ids, letter masks, session list |
| `HistoryIndex.History.CompactSession` | src/history.rs:294-309 | Keeps the plain list and bounds the slots by 64 or twice the live count |
| `HistoryIndex.History.RememberSession` | src/history.rs:277-309 | The plain list moves the entry to its end, and the bound holds after every insert |
| `HistoryIndex.History.Recall` | src/history.rs:513-520 | The command at a skip is read from the end of the plain list |
| `HistoryIndex.History.UsageIsTally` | src/history.rs:325-402 | For every command and directory the stored usage is the direct tally of the log, and a search's context the nearest tallied ancestor |
| `HistoryIndex.History.UsageCountsUses` | src/history.rs:219-258 | The stored total counts the uses of the command in the log, and the stored usage of a directory those that count for it, each with the latest time |
| `HistoryIndex.History.Add` | src/history.rs:464-489 | A blank line changes nothing; any other is applied under the next id and moved to the end of the session |
| `Search.BonusIsBounded` | src/history.rs:819-830 | The bonus is bounded, grows with count and recency, and any use within the last hour outranks any a month old |
| `Search.BonusSteps` | src/history.rs:819-830 | Two for every doubling of the count up to 1024, and 24, 20, 12, 4 or 0 by age |
| `Search.KeysAreOrdered` | src/history.rs:687-707 | Rank keys of distinct entries are strictly ordered, latest ids breaking every tie |
| `Search.RejectKeepsRanking` | src/history.rs:652-659 | Both early rejections leave the ranking of one more candidate correct |
| `Search.InsertKeepsRanking` | src/history.rs:660-664 | Popping the worst and inserting at the partition point keeps the greatest keys in order |
| `Search.ShownDependsOnMatches` | src/history.rs:587-685 | Results depend on the set of matching candidates only, not on their order |
| `Search.ScanCandidates` | src/history.rs:616-668 | The loop lists every matching candidate, also for limit 0, and ranks exactly the greatest keys |
| `Search.MaterializeMatch` | src/history.rs:948-990 | Score and highlighted positions are those of the match's tier |
| `Search.SearchLimited` | src/history.rs:587-685 | Returns the `limit` greatest rank keys among all matching candidates in descending order, and all matches |
| `Ranking.ShownIsFull` | src/history.rs:587-685 | There are as many results as the limit and the matches allow, each for a matching candidate |
| `Ranking.TextDecides` | src/history.rs:885-923 | Of two matching commands one that starts with the query comes before one that does not, then one with it at the start of a word, then one with it anywhere, then a scattered one |
| `Ranking.DirectoryDecides` | src/history.rs:709-764 | Of two equally placed commands the one with a use that counts nearer to the working directory comes first |
| `Ranking.UsageDecides` | src/history.rs:687-707 | Placed alike and equally near: used as often and later, twice as often within two hours, or within the hour against not for thirty days comes first, and used alike the one used last |
| `Ranking.LastUseDecides` | src/history.rs:646-650 | With nothing typed, the command used later comes first |
| `Ranking.ResultScore` | src/history.rs:948-990 | A result names its entry, and its score says which placement the text has |
| `Ranking.ResultPlaces` | src/history.rs:948-990 | Its positions, at most 32, lie on the characters of the query in order; above the scattered tier they are consecutive, from the front of the text or of a word |
| `Search.HistoryIsSearchable` | src/history.rs:544-547 | A valid history meets every precondition of the search |
| `HistorySearch.CoverShowsAll` | src/editor.rs:1449-1532 | Searching any superset of the matches shows what searching everything shows |
| `HistorySearch.NarrowedCovers` | src/editor.rs:1471-1482 | The matches within a cover of a query cover any longer query |
| `HistorySearch.FrameOfLength` | src/editor.rs:1483-1504 | A stack frame with the new byte length belongs to the new query itself |
| `HistorySearch.HistorySearch.constructor` | src/editor.rs:257-294 | Starting the mode shows a fresh search for the empty query |
| `HistorySearch.HistorySearch.Update` | src/editor.rs:1449-1532 | Whichever branch is taken, the matches shown are those of a fresh global search, and candidates and frames cover their queries |
| `HistorySearch.HistorySearch.Handle` | src/editor.rs:1344-1447 | Every key edits the line and the selection and keeps that invariant |
| `HistorySearch.HistorySearch.Accept` | src/editor.rs:1366-1372 | Enter gives the selected command, or none |
| `HistorySearch.AcceptedMatches` | src/editor.rs:1366-1372 | 200 matches are shown, or all when there are fewer, and whatever is selected matches the query |
| `LineLaws.PasteInserts` | src/line.rs:67-75 | Typed or pasted text goes in at the cursor, which moves behind it |
| `LineLaws.PasteIsTyping` | src/line.rs:67-75 | Pasting is typing one character after the other |
| `LineLaws.BackspaceUndoesTyping` | src/line.rs:77-85 | Typing a character and deleting it back gives the line back |
| `LineLaws.BackspaceRemovesOne` | src/line.rs:77-85 | Deleting back removes exactly the character before the cursor, and nothing at the front |
| `LineLaws.DeleteIsRightThenBackspace` | src/line.rs:87-95 | Deleting forward is moving right and deleting back |
| `LineLaws.YankUndoesKillToStart` | src/line.rs:285-291 | What is killed to the start is yanked back, and with nothing to kill nothing changes |
| `LineLaws.YankUndoesKillToEnd` | src/line.rs:278-283 | The same to the end |
| `LineLaws.YankUndoesKillWordBack` | src/line.rs:293-309 | Killing a word back removes exactly what a word move left passes over, and yanking puts it back |
| `LineLaws.WordLeftFindsTheWord` | src/line.rs:203-214 | A word move left goes to the start of the last word before the cursor |
| `LineLaws.WordRightFindsTheNextWord` | src/line.rs:216-225 | A word move right passes the rest of a word and the blanks after it |
| `LineLaws.MovesKeepText` | src/editor.rs:1373-1392 | Moves and selection keep text and kill, and every other key searches again |
| `LineLaws.LeftUndoesRight` | src/line.rs:97-111 | One step left and one right undo each other inside the text and stop at its ends |
| `HistorySearch.Run` | src/editor.rs:1344-1532 | After every run of typing, deleting, pasting, killing, yanking and moving, the matches shown equal a fresh search of all history for the current query |
| `HistorySearch.HistoryListsAll` | src/editor.rs:257-294 | Any valid history can be searched this way |
| `Quoting.ShellTokens` | src/editor.rs:894-923 | The loop computes the tokenizer the theorems are about |
| `Quoting.LexReplacement` | src/editor.rs:1299-1316 | In any unquoted state the tokenizer takes the replacement as exactly the completed text |
| `Quoting.CompletionRoundTrip` | src/editor.rs:1299-1316 | Tokenizing what is inserted gives back exactly that one word: bare, quoted with quotes escaped, or split after `~/` |
| `Quoting.FindCompWordStart` | src/editor.rs:973-1002 | The loop computes the word scan the theorems are about |
| `Quoting.WordStartIsClean` | src/editor.rs:973-1002 | Text put at the word start is scanned as if nothing preceded it |
| `QuoteLaws.WordStartIsLastBreak` | src/editor.rs:973-1002 | The word start is 0 or just past an unquoted, unescaped space, tab or newline with none after it, and it is the only such place |
| `QuoteLaws.WordStartsAfterTheLastBlank` | src/editor.rs:992-995 | On a line without quotes or backslashes it is just past the last blank, and 0 without one |
| `QuoteLaws.OnlyHarmlessTextStaysBare` | src/complete.rs:931-954 | Text stays bare only without any character the shell treats specially, but for the newline; otherwise it is inserted between single quotes, after a leading `~/` |
| `QuoteLaws.BlankSeparates` | src/editor.rs:911-915 | A space or tab outside quotes separates the tokens of its two sides |
| `QuoteLaws.DoubleQuotedIsOneToken` | src/editor.rs:909-917 | Text between double quotes is one token, blanks and single quotes included |
| `Quoting.WordStartIsStable` | src/complete.rs:931-954 | The word start survives the insertion if and only if the text was quoted or holds no newline |
| `Quoting.BareNewlineMovesTheStart` | src/complete.rs:931-954 | A bare newline moves it |
| `Quoting.CompletionAddsOneToken` | src/editor.rs:894-937 | The line's tokens become the earlier ones and the completed word if and only if the word did not start after a newline |
| `Quoting.NewlineJoinsTheWords` | src/editor.rs:894-923 | After a newline the completed word joins the word before it |
| `Quoting.PreviewCompletion` | src/editor.rs:1279-1321 | Replaces the word under the cursor, keeps the rest, puts the cursor after it, and gives the base line back when nothing is selected |
| `QuoteLaws.CompletionReplacesTheLastWord` | src/editor.rs:1279-1321 | Completing the last word of such a line replaces that word and nothing else |
| `EnvDiff.DiffSortedEnv` | src/denv.rs:1030-1066 | The two-pointer loop sets exactly the pairs new to `after` and unsets exactly the names gone from it, in order |
| `EnvDiff.DiffYieldsAfter` | src/denv.rs:1030-1066 | Applying the difference to `before` yields `after` |
| `EnvDiff.DiffIsMinimal` | src/denv.rs:1030-1066 | Set and unset are disjoint and nothing is redundant |
| `EnvDiff.Overlay` | src/denv.rs:1339-1345 | The binary-search overlay keeps the list sorted and is the last-wins map update, repeated keys included |
| `EnvDiff.DotenvOnlyIsLastWins` | src/denv.rs:1003-1014 | A lone `.env` gives the last-wins update if and only if no key's last entry reverts an earlier one to the current value |
| `EnvDiff.RevertedKeyKeepsTheEarlierValue` | src/denv.rs:1003-1014 | With `A=1` set, the entries `A=2` and `A=1` leave `A=2` |
| `ActiveRecord.WriteRecord` | src/denv.rs:767-798 | The buffer the loop fills is the rendered record |
| `ActiveRecord.RecordRoundTrip` | src/denv.rs:607-654 | Every state `save_active` accepts is read back unchanged: any path and value bytes, empty values, all five binding kinds, any timestamps |
| `ActiveRecord.RenderIsUtf8` | src/denv.rs:589-605 | What is written passes the loader's UTF-8 check |
| `ActiveRecord.ParsedIsStorable` | src/denv.rs:607-750 | Whatever is parsed, in any of the three formats, would pass the validation on saving |
| `ActiveRecord.ReadBackIsStable` | src/denv.rs:607-654 | Saving what was read from a version 2 record and reading it again changes nothing |
| `ActiveRecord.StorableIs` | src/denv.rs:752-766 | What may be saved, byte by byte: an absolute path, names without `=` and not empty, and no zero byte |
| `OldRecords.VersionOneIsRead` | src/denv.rs:607-632 | A version 1 record of exported values and unset names is read back unchanged |
| `OldRecords.LegacyIsRead` | src/denv.rs:656-664 | So is one from before the header |
| `OldRecords.CarriageReturnIsDropped` | src/denv.rs:656-664 | There a carriage return before the newline belongs to the line end |
| `Bytes.DecodeIsInverse` | src/denv.rs:729-750 | Hexadecimal decoding accepts nothing but what encoding writes |
| `EnvLayer.ApplyChanges` | src/denv.rs:215-225 | The loop applies the changes in order and stops at the first readonly refusal |
| `EnvLayer.RestoreIs` | src/denv.rs:1508-1519 | Restoring fails exactly when a listed name is readonly, and otherwise puts back every listed binding |
| `EnvLayer.CaptureIsPutBack` | src/denv.rs:1496-1506 | What was captured is put back whatever the store holds: value, unassigned or unset, and the export flag |
| `Denv.Session.SaveActive` | src/denv.rs:752-838 | An invalid state or a failed write leaves the record as it was |
| `Denv.Session.Refresh` | src/denv.rs:227-270 | Store, layer and record move together as the transition says; once the record is loaded, a failure anywhere changes nothing |
| `LayerFiles.LayerBelongsToItsFiles` | src/denv.rs:306-319 | Over any run on one file tree, a successful refresh ends without a layer or with the layer of the files found: allowed, of the same two times, in the same directory up to its canonical form |
| `LayerFiles.ForcedNeverKeeps` | src/denv.rs:306-396 | A forced refresh never keeps the old layer: it evaluates and records the files anew or ends without one |
| `LayerFiles.StateIsTrusted` | src/denv.rs:459-474 | The state variable alone makes an unforced refresh a no-op |
| `LayerFiles.BelongsUnlessMoved` | src/denv.rs:306-319 | With links that may have changed, a successful refresh ends with another directory's layer if and only if it was unforced and the state variable matched while the record's directory had moved |
| `LayerFiles.ErrorsAreRefused` | src/denv.rs:272-396 | Unreadable or unparsable files, a relative directory, a readonly name of the layer, and a record that cannot be updated leave everything as it was |
| `LayerFiles.FailedLayerComesOff` | src/denv.rs:338-377 | A blocked file or a failing evaluation is no error: the old layer comes off and the project is marked dirty |
| `LayerFiles.MalformedRecord` | src/denv.rs:230-244 | A record that cannot be understood stops every refresh until a forced one discards it |
| `LayerFiles.RecordIsLoaded` | src/denv.rs:230-244 | A record that is understood becomes the layer in memory |
| `Denv.RefreshKeepsRecordCurrent` | src/denv.rs:227-270 | After every refresh, failed or not, the record on disk reads back as the layer in memory |
| `Denv.NewLayerComesOff` | src/denv.rs:1496-1528 | Taking off a layer just put on gives back the store under it |
| `Denv.RefreshKeepsBase` | src/denv.rs:227-396 | Whatever a refresh does, the restore list still applies and still gives the same base |
| `Denv.LeavingRestoresBase` | src/denv.rs:330-333 | Leaving every project restores the base and clears denv's own names |
| `Denv.RefreshShowsLayer` | src/denv.rs:382-396 | A loaded layer shows, at every name, its last set or unset over the base |
| `LayerFiles.EvaluationIsShown` | src/denv.rs:363-396 | With an `.envrc`, a refresh that is not a no-op shows the evaluation over the base |
| `LayerFiles.DotenvIsShown` | src/denv.rs:378-396 | With only a `.env`, a child sees every entry's last value when no key is reverted, and other names keep their binding |
| `Denv.ChildSeesTheEvaluatedValue` | src/denv.rs:1521-1528 | With the snapshots' difference applied, a child sees exactly what the evaluation ended with |
| `Denv.NoLayerLeaks` | src/denv.rs:227-396 | Over any run of refreshes and user edits, taking off the layer succeeds and gives the starting store as the user edited it |
| `Denv.LeavingEndsEveryLayer` | src/denv.rs:227-396 | From a fresh session, any run followed by leaving ends with that store |
| `Denv.StateRoundTrip` | src/denv.rs:453-457 | `__DENV_STATE` reads back as the timestamps and directory it was written with |
| `Denv.LoadedIsMarked` | src/denv.rs:382-396 | A loaded project exports its directory and the state of its files, and is not dirty |
| `Denv.FailedIsRetried` | src/denv.rs:338-377 | A blocked or failing project is marked dirty, keeps no layer or record, and is tried again by the next refresh |
| `Denv.SecondRefreshKeeps` | src/denv.rs:306-319 | Refreshing again with the same allowed files is a no-op |
| `Capture.OutputBuffer.Push` | src/capture.rs:61-77 | The buffer is the last bytes of everything pushed, and the flag is set exactly by an overflow or a chunk of the limit |
| `Capture.OutputBuffer.FlagIsExact` | src/capture.rs:61-77 | The flag says that bytes were dropped, except when one chunk of exactly the limit was all |
| `Capture.EarliestSignal` | src/capture.rs:723-748 | Finds the first byte that is any signal key, suspend before interrupt before quit, and no disabled key |
| `Capture.NoByteIsLost` | src/capture.rs:607-712 | The bytes read are, in order and once each, those accepted or consumed as keys, then those held |
| `Capture.SignalsKeepTheirPlace` | src/capture.rs:656-699 | A signal fires only for the next byte of the input and only for the key that means it; any other byte goes to the master; a read happens only with nothing held and before any hangup |
| `Capture.Pump.WriteMaster` | src/capture.rs:801-820 | Bytes are left over only after a pause, would-block or failure; blocked exactly on failure |
| `Capture.Pump.KeepUnwritten` | src/capture.rs:701-712 | What the master does not take becomes the tail |
| `Capture.Pump.ForwardChunk` | src/capture.rs:656-699 | Every byte of the chunk is disposed of as its class says or kept, in order |
| `Capture.Pump.DrainTail` | src/capture.rs:648-654 | The tail is retried and what is still refused put back |
| `Capture.Pump.Forward` | src/capture.rs:607-646 | Reads only with an empty tail and never beyond a refusal; the terminal stops being usable exactly when it hung up |
| `Capture.Pump.Turn` | src/capture.rs:471-528 | A held tail is retried as soon as the master is writable unless a pause is seen, the terminal is given up exactly when it hung up, and nothing moves when input is not forwarded |
| `Capture.Pump.Relay` | src/capture.rs:471-553 | Under any polls, pauses, closing and stop, the tail handed back is exactly what was read and not disposed of |
| `Foreground.MergeIsLeastUpperBound` | src/foreground.rs:503-513 | Merging is the least upper bound in all nine fields |
| `Foreground.TotalIsMaximum` | src/foreground.rs:503-513 | Merging a stream gives its field-wise maximum |
| `Foreground.StepKeeps` | src/foreground.rs:95-133 | Every atomic step keeps the emissions partitioned between replay, consumer and slot, and the notes between delivered and queued |
| `Foreground.SnapshotsNeverDecrease` | src/foreground.rs:422-462 | In every interleaving each delivered snapshot is exactly the maximum of a prefix of the emissions, and none is below an earlier one in any field |
| `Foreground.NothingIsLost` | src/foreground.rs:100-133 | In every interleaving nothing emitted is lost, and other events are delivered or queued once each in send order |
| `Foreground.DrainDeliversEverything` | src/foreground.rs:300-321 | After the final drain the last snapshot is the maximum of all emitted, and every other event was delivered once in order |
| `Foreground.NoMissedWakeUp` | src/foreground.rs:395-442 | With the consumer waiting and progress in the slot, an event is queued or a producer is still emitting, so the race between taking the slot and clearing the flag strands nothing |
| `Draining.EveryRunCanFinish` | src/foreground.rs:298-360 | From every reachable state some run completes the producers, drains the queue, delivers every note once and ends with the maximum of all emitted |
| `Draining.DeliveryPublishesAll` | src/foreground.rs:422-442 | A delivery publishes everything emitted before it, announced or not |
| `Draining.TimeoutReplays` | src/foreground.rs:464-477 | After a timeout the latest snapshot may be shown again, unchanged |
| `Draining.EmittingNeverBlocks` | src/foreground.rs:100-133 | Progress is never held up by a full queue; other events wait only for space |

## Left out

- The history store on disk, legacy import, `apply_snapshot`, `clear` and `reset`: persistence is not part of this model, and clearing would only add easy members.
- Unicode lowercase and whitespace tables: parameters of the model; only the ASCII part of lowercase is fixed.
- Byte offsets of the query line and of command text: modelled as character offsets, with UTF-8 lengths written out where the stack of candidate sets compares them.
- HistoryIndex.History.ApplyOccurrence: asks for fewer than 2^32 - 1 entries and 2^32 - 2 directories, and for a fresh positive id, because the source panics beyond those `u32` tables and the store hands out the ids.
- HistoryIndex.History.RememberSession: asks for fewer than 2^32 - 1 session slots, for the same reason.
- WordScan.FindEitherByte: the 64-bit word is a sequence of eight little-endian bytes with explicit borrows, tied to arithmetic by `SubIsWrapping`.
- Paths are sequences of components; normalising a path from text, symbolic links and `..` are not modelled.
- `score_match`, `prefix_search`, `session_prefix_search` and rendering of matches: would only add easy members.
- The directory picker, key decoding and drawing of the editor: user interface.
- File discovery, trust files, hashing, evaluating `.envrc` (any difference or a failure), parsing `.env`, and filtering of environment snapshots: outcomes are parameters of a refresh.
- Saving and removing the record: one step that succeeds or fails; the temporary file and stale records of other shells are not modelled.
- LayerFiles.LayerBelongsToItsFiles: canonical paths may not change during the run and the user may not edit denv's own variables; `StateIsTrusted` shows what happens otherwise.
- Denv.NoLayerLeaks: a user edit may not make a name of the active layer readonly, because then the restore is refused; `EnvLayer.RestoreIs` gives that case exactly.
- Inherited environment entries whose names are not shell names, function-local scopes, and error messages of the store.
- Variable names as Rust strings: byte sequences that are UTF-8, stated as `WellTyped` and `Typed`.
- Capture.Pump.WriteMaster: any finite number of interruptions, since a loop that is interrupted forever does not end.
- `strip_controls`, window sizes, terminal modes, and writing the output to the real terminal.
- Foreground.NothingIsLost: a poisoned lock and a dropped receiver are not modelled.
- The watchdog, drawing of progress and the clock of the replay: a replay may or may not be due.
- epsh, ish-fs and fdu: not part of this model.
