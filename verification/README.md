# Brepair fault localisation and FAIT session, in Dafny

This project models the statistical core of Brepair's fault localiser and the
manager of its session with the FAIT flow-analysis server.

**Fault localiser (`BrepairCountData`).**
- For every method and every basic block it records how many passing and failing
  test runs covered it.
- It also records how many passing and failing user judgements covered it, and the
  highest dataflow priority a FAIT back slice gave it.
- Each record gets a suspicion score: the Ochiai coefficient over those counts, with
  user observations weighing ten times as much.
- The score is blended with a flow bonus, using a flow factor of 0.8. The factor is
  switched off for good when no flow priority has been seen by the time the methods
  are ranked.
- Methods are ranked by score. Test methods are skipped. The listing stops below a
  fraction of the top score, and only ties are admitted past a maximum count.
- The blocks of each listed method are then ranked against the threshold that was in
  force when that method was listed.

**FAIT manager (`BrepairFaitManager`).**
- The constructor builds a session id from a shared 32-bit counter.
- The launcher pings the server up to 100 times, starting the server process after
  the first unanswered ping.
- The setup handshake sends `BEGIN`, then `ADDFILE` (only when there are files), then
  `ANALYZE`.
- Notifications are filtered by session id. `ANALYSIS` notifications drive a small
  state machine (`NONE`, `PENDING`, `READY`), and `waitForAnalysis` polls it.
- `getFaitResult` does three things:
  - it reads the failing test's stack trace into a `STACKSTART` request: tokenised on
    newline and tab, each later token trimmed and matched against the frame pattern;
  - it sends the resulting `FLOWQUERY`;
  - it feeds every flow node with a non-zero priority into the count data.

**How things are represented.**
- Every operation is a pure function (or a method, where the source loops) from the
  old state and the inputs to the new state.
- Messages from the server (replies, notifications, ping answers) are inputs.
- `Math.sqrt` is a parameter; the lemmas assume only that it returns the non-negative
  square root.
- A `TreeSet` under a comparator is the sorted sequence of its elements under the
  comparator's strict total order (`Ordering.SortSet`).

Modules, in dependency order:
- `Wrappers`
- `Strings`: Java string behaviour (`compareTo`, `startsWith`, `trim`, decimal `int`
  rendering, `Integer.parseInt`)
- `Ordering`
- `Suspicion`: counters and score
- `CountData`: records and their updates
- `Ranking`: comparators, method and block rankings
- `StackTrace`: trace to `STACKSTART` request
- `FaitSession`: manager state, handshake, launcher
- `FlowQuery`: `getFaitResult`

Notes on how the model reads the code:
- `addUserFeedback(method, sline, eline, pass)` counts the judgement in the method and
  its blocks but leaves the user totals alone. So it can push a record's user count
  above the session total; `CountData.RangeFeedbackBreaksTotals` exhibits this. The
  per-execution `addUserFeedback(bcd, pass)` does raise a total.
- A judged method is counted even when all of its line counts are 0. (`CountData.AddUserFeedback`)
- The first group of the frame pattern, `[a-zA-z0-9_.$]`, uses the range `A-z`. That
  range also admits `[`, `\`, `]`, `^` and the backtick. The model follows the pattern
  as written; `StackTrace.MethodClassAdmitsBrackets` and
  `StackTrace.BracketFrameMatches` record the consequence.

## Model

All source paths are under `javasrc/edu/brown/cs/seedebb/brepair/`.

| member | source | states |
|---|---|---|
| Suspicion.FlowScore | javasrc/edu/brown/cs/seedebb/brepair/BrepairCountData.java:369-371 | The flow bonus lies in [0, 1]. It is 0 exactly when the element never failed or has no positive priority. Otherwise it is exactly 1, or exactly a tenth once a user has seen the element pass. |
| Suspicion.ComputeOchiai | javasrc/edu/brown/cs/seedebb/brepair/BrepairCountData.java:358-376 | Scoring stores the blended score in the record and changes none of its counters. With a genuine square root and a flow factor in [0, 1], the stored score is never negative. It is at most 1 when the element's weighted failures lie within the weighted fail total. It is 0 when no failure was counted in the element or in the totals. |
| Suspicion.StatisticalScoreBounds | javasrc/edu/brown/cs/seedebb/brepair/BrepairCountData.java:358-367 | When an element's weighted failures do not exceed the weighted fail total, its Ochiai coefficient lies in [0, 1]. |
| Suspicion.OchiaiBounds | javasrc/edu/brown/cs/seedebb/brepair/BrepairCountData.java:358-376 | Under the same condition, and with a flow factor in [0, 1], the blended score lies in [0, 1]. |
| Suspicion.OchiaiNonNegative | javasrc/edu/brown/cs/seedebb/brepair/BrepairCountData.java:358-376 | With a flow factor in [0, 1], the score is never negative, whatever the counts. |
| Suspicion.NoFailuresNoSuspicion | javasrc/edu/brown/cs/seedebb/brepair/BrepairCountData.java:358-373 | An element that never failed scores 0 when no failures have been counted at all. |
| Suspicion.UserPassDividesFlowBonus | javasrc/edu/brown/cs/seedebb/brepair/BrepairCountData.java:369-371 | A user-confirmed pass divides the flow bonus by the user scale factor (10). |
| Suspicion.FlowPriorityRaisesScore | javasrc/edu/brown/cs/seedebb/brepair/BrepairCountData.java:369-373 | With a positive flow factor, a positive flow priority strictly raises a failing element's score. |
| Suspicion.OchiaiMonotoneInFail | javasrc/edu/brown/cs/seedebb/brepair/BrepairCountData.java:358-373 | With the totals fixed, one more failing run covering an element never lowers its score. |
| CountData.CountIsCountedOnce | javasrc/edu/brown/cs/seedebb/brepair/BrepairCountData.java:338-341 | `count` adds exactly one pass (or one failure) and leaves every other counter alone. |
| CountData.UserCountIsUserCountedOnce | javasrc/edu/brown/cs/seedebb/brepair/BrepairCountData.java:343-351 | `userCount` and `userMark` add exactly one user pass (or user failure) and leave every other counter alone. |
| CountData.RaisePriorityIsRaisedTo | javasrc/edu/brown/cs/seedebb/brepair/BrepairCountData.java:354-356 | Setting a flow priority makes the new priority the larger of the old one and the given one. |
| CountData.New | javasrc/edu/brown/cs/seedebb/brepair/BrepairCountData.java:78-88 | Without a baseline the records are empty. Otherwise the records are exactly the methods and blocks the baseline covered. Each record holds one failure and nothing else, and the run totals are 0 passes and 1 failure. |
| CountData.AddRun | javasrc/edu/brown/cs/seedebb/brepair/BrepairCountData.java:98-128 | A later run creates no record. It raises one run total by one and counts the run once in each known method and block it covered. Every other record is unchanged, and block lines keep their first values. |
| CountData.AddFlowPriority | javasrc/edu/brown/cs/seedebb/brepair/BrepairCountData.java:132-137 | The session maximum becomes the larger of the old maximum and the priority. Only the named method and its blocks containing the line are raised, and only when the method is known. Nothing else changes. |
| CountData.JudgeBlocksLoop | javasrc/edu/brown/cs/seedebb/brepair/BrepairCountData.java:263-281 | The source's nested loop with its `done` set equals the reference definition: each block is counted once exactly when some line with a non-zero count lies in it. This holds in any iteration order. |
| CountData.JudgeMethod | javasrc/edu/brown/cs/seedebb/brepair/BrepairCountData.java:266-281 | One judgement counts the method once whatever its lines, and each hit block exactly once. |
| CountData.AddUserFeedback | javasrc/edu/brown/cs/seedebb/brepair/BrepairCountData.java:258-283 | One user total goes up. Each known judged method is judged. Unjudged and unknown methods are untouched. |
| CountData.AddUserFeedbackRange | javasrc/edu/brown/cs/seedebb/brepair/BrepairCountData.java:287-299 | An unknown method changes nothing. For a known method, the method gets one user count, and so does each block overlapping the range (every block when the start line is 0). The totals are unchanged. |
| CountData.NewValid | javasrc/edu/brown/cs/seedebb/brepair/BrepairCountData.java:78-88 | Fresh records keep every counter within its total, every priority within [0, maximum], and the flow factor at its default. |
| CountData.AddRunPreserves | javasrc/edu/brown/cs/seedebb/brepair/BrepairCountData.java:98-128 | A run keeps counters within totals and priorities bounded. |
| CountData.AddFlowPriorityPreserves | javasrc/edu/brown/cs/seedebb/brepair/BrepairCountData.java:132-137 | A flow priority keeps counters within totals and priorities bounded. |
| CountData.AddUserFeedbackPreserves | javasrc/edu/brown/cs/seedebb/brepair/BrepairCountData.java:258-283 | A user judgement keeps counters within totals and priorities bounded. |
| CountData.AddUserFeedbackRangePreservesPriorities | javasrc/edu/brown/cs/seedebb/brepair/BrepairCountData.java:287-299 | Range feedback keeps priorities bounded. |
| CountData.RangeFeedbackBreaksTotals | javasrc/edu/brown/cs/seedebb/brepair/BrepairCountData.java:287-299 | Range feedback can lift a user count above its total; a concrete session shows it. |
| Ordering.SortSet | javasrc/edu/brown/cs/seedebb/brepair/BrepairCountData.java:191-202 | Iterating a comparator-ordered set yields each element once, in strictly increasing comparator order. |
| Ordering.SortedUnique | javasrc/edu/brown/cs/seedebb/brepair/BrepairCountData.java:191-202 | That iteration order is the only one: two sorted sequences with the same elements are equal. |
| Ranking.MethodOrder | javasrc/edu/brown/cs/seedebb/brepair/BrepairCountData.java:454-463 | `MethodComparator` (higher score first, then name) is a strict total order on score–name pairs. |
| Ranking.BlockOrder | javasrc/edu/brown/cs/seedebb/brepair/BrepairCountData.java:499-514 | `BlockComparator` (score, then start line, then label, then identity) is a strict total order. |
| Ranking.BlockLabelRoundTrip | javasrc/edu/brown/cs/seedebb/brepair/BrepairCountData.java:489-492 | A block label can be read back into exactly its start and end lines. |
| Ranking.BlockLabelInjective | javasrc/edu/brown/cs/seedebb/brepair/BrepairCountData.java:489-492 | Different line ranges get different labels. |
| Ranking.MaxBlockScore | javasrc/edu/brown/cs/seedebb/brepair/BrepairCountData.java:416-420 | The result is the largest block score, or 0 when there are no blocks or all scores are negative. It is an upper bound and is attained. |
| Ranking.ScoreMethod | javasrc/edu/brown/cs/seedebb/brepair/BrepairCountData.java:414-426 | A method with blocks rescores each block, takes the attained maximum (at least 0) and drops its block ranking. A method without blocks is scored on its own counters. No counter changes. |
| Ranking.Rescore | javasrc/edu/brown/cs/seedebb/brepair/BrepairCountData.java:189-198 | The flow factor becomes 0 exactly when no priority was ever seen or it was already 0. Every method is scored with that factor, and nothing else changes. |
| Ranking.RescoreBounds | javasrc/edu/brown/cs/seedebb/brepair/BrepairCountData.java:189-198 | On valid records, every method and block score after a rescore lies in [0, 1]. |
| Ranking.FlowFactorStaysOff | javasrc/edu/brown/cs/seedebb/brepair/BrepairCountData.java:192 | Once switched off, the flow factor stays 0. |
| Ranking.SortedBlockKeys | javasrc/edu/brown/cs/seedebb/brepair/BrepairCountData.java:430-436 | The block set holds exactly the blocks scoring at least the cutoff and starting after line 0, in comparator order. |
| Ranking.ComputeSortedBlocks | javasrc/edu/brown/cs/seedebb/brepair/BrepairCountData.java:428-442 | An existing block ranking is kept. Otherwise the labels of the qualifying blocks are recorded in comparator order. Nothing else changes. |
| Ranking.AllBlockKeys | javasrc/edu/brown/cs/seedebb/brepair/BrepairCountData.java:162-167 | The session-wide block set holds every block of every method, each once, in comparator order. |
| Ranking.GetAllSortedBlocks | javasrc/edu/brown/cs/seedebb/brepair/BrepairCountData.java:162-178 | The listing names every block as `method@start@end`, in that order. |
| Ranking.GetSortedBlocks | javasrc/edu/brown/cs/seedebb/brepair/BrepairCountData.java:154-159 | An unknown method gives null; a known one gives its current block ranking. |
| Ranking.MethodKeys | javasrc/edu/brown/cs/seedebb/brepair/BrepairCountData.java:191-198 | The method set holds every method with its current score, in comparator order. |
| Ranking.Eligible | javasrc/edu/brown/cs/seedebb/brepair/BrepairCountData.java:202-203 | The loop sees only keys whose names do not start with the test name. |
| Ranking.EligibleContents | javasrc/edu/brown/cs/seedebb/brepair/BrepairCountData.java:202-203 | A key survives the filter exactly when its name does not start with the test name. |
| Ranking.EligibleSorted | javasrc/edu/brown/cs/seedebb/brepair/BrepairCountData.java:202-203 | Skipping keys keeps the remaining ones in comparator order. |
| Ranking.CutTies | javasrc/edu/brown/cs/seedebb/brepair/BrepairCountData.java:209 | Past the maximum count, a listed method ties the last one within the count. |
| Ranking.SelectStep | javasrc/edu/brown/cs/seedebb/brepair/BrepairCountData.java:204-210 | One pass either stops on a method outside the cut, or lists it with the threshold the loop moves on with. |
| Ranking.SelectMethods | javasrc/edu/brown/cs/seedebb/brepair/BrepairCountData.java:200-211 | The listing is a prefix of the eligible methods. On non-negative scores and cutoff, each listed method is within the cut and carries its block cutoff, and the first method left out is not within the cut. |
| Ranking.ApplyPicks | javasrc/edu/brown/cs/seedebb/brepair/BrepairCountData.java:210 | Each listed method gets its block ranking computed with its own cutoff. Unlisted methods and all scores are untouched. |
| Ranking.RankedInOrder | javasrc/edu/brown/cs/seedebb/brepair/BrepairCountData.java:200-211 | The stored listing is a prefix of the eligible methods, in comparator order, without test methods. Unlisted methods are untouched. |
| Ranking.RankedCut | javasrc/edu/brown/cs/seedebb/brepair/BrepairCountData.java:204-209 | Every listed method scores at least the top score times the cutoff. Those past the maximum count tie the last one within it. The run stops at the first method outside the cut. |
| Ranking.RankedBlocks | javasrc/edu/brown/cs/seedebb/brepair/BrepairCountData.java:209-210 | Each listed method's blocks are ranked with the threshold in force after it was listed. |
| Ranking.RankedWithinCut | javasrc/edu/brown/cs/seedebb/brepair/BrepairCountData.java:189-211 | The three listing properties above hold together. |
| Ranking.ComputeSortedMethods | javasrc/edu/brown/cs/seedebb/brepair/BrepairCountData.java:189-212 | It sets the flow factor and stores the listing in order and within the cut. It ranks the listed methods' blocks and leaves the totals and the maximum priority alone. |
| Strings.ParseJavaInt | javasrc/edu/brown/cs/seedebb/brepair/BrepairFaitManager.java:413 | `Integer.parseInt` on a digit run succeeds exactly when the value fits in an `int`, and then gives that value. |
| Strings.TrimPadded | javasrc/edu/brown/cs/seedebb/brepair/BrepairFaitManager.java:407 | `trim` removes exactly the blank characters (U+0000–U+0020) padding the text. |
| Strings.IntToStringRoundTrip | javasrc/edu/brown/cs/seedebb/brepair/BrepairCountData.java:490-491 | The decimal rendering of an `int` reads back to the same number. |
| StackTrace.Tokenize | javasrc/edu/brown/cs/seedebb/brepair/BrepairFaitManager.java:394 | Tokens are non-empty and contain neither newline nor tab. |
| StackTrace.TokenizeSplit | javasrc/edu/brown/cs/seedebb/brepair/BrepairFaitManager.java:394 | A delimiter separates: the tokens of `a`, a delimiter and `b` are the tokens of `a` followed by those of `b`. |
| StackTrace.TokenizeCons | javasrc/edu/brown/cs/seedebb/brepair/BrepairFaitManager.java:394-398 | A delimiter-free first line is the first token, and the rest is tokenised on its own. |
| StackTrace.MatchFrameSound | javasrc/edu/brown/cs/seedebb/brepair/BrepairFaitManager.java:82-83 | Whatever matches the frame pattern is `at `, method group, `(`, file group, `:`, digits, `)`, with the groups returned. |
| StackTrace.MatchFrameComplete | javasrc/edu/brown/cs/seedebb/brepair/BrepairFaitManager.java:82-83 | Every string of that shape matches, with exactly those groups. |
| StackTrace.MatchFrameIff | javasrc/edu/brown/cs/seedebb/brepair/BrepairFaitManager.java:408-413 | A string matches with given groups exactly when it has the frame shape with those groups. |
| StackTrace.MethodClassAdmitsBrackets | javasrc/edu/brown/cs/seedebb/brepair/BrepairFaitManager.java:82-83 | The range `A-z` in the method group admits `[`, `\`, `]`, `^` and the backtick, which the file group refuses. |
| StackTrace.BracketFrameMatches | javasrc/edu/brown/cs/seedebb/brepair/BrepairFaitManager.java:82-83 | So `at x[(Y:1)` matches, with method group `x[`. |
| StackTrace.TokenFrameShaped | javasrc/edu/brown/cs/seedebb/brepair/BrepairFaitManager.java:407-413 | A token that is frame-shaped once trimmed gives its frame when the line number fits an `int`, and a parse failure otherwise. |
| StackTrace.ParseFramesAppend | javasrc/edu/brown/cs/seedebb/brepair/BrepairFaitManager.java:406-422 | Frames keep token order: the frames of `a + b` are those of `a` followed by those of `b`, and a failure anywhere fails the whole. |
| StackTrace.ParseFramesSingle | javasrc/edu/brown/cs/seedebb/brepair/BrepairFaitManager.java:407-421 | A single token adds nothing when it does not match, its frame when it does, and fails when its line overflows. |
| StackTrace.ParseFramesFails | javasrc/edu/brown/cs/seedebb/brepair/BrepairFaitManager.java:413 | Parsing fails exactly when some matching token's line number overflows `int`. |
| StackTrace.BackSliceRequest | javasrc/edu/brown/cs/seedebb/brepair/BrepairFaitManager.java:389-427 | A missing or blank trace gives no request. Otherwise the parse fails exactly when the later tokens fail to parse. When they parse, a request is made exactly when they yield at least one frame. A request's exception is the first token, untrimmed, and its frames are those parsed from the later tokens. |
| StackTrace.RequestHoldsMatchedFrame | javasrc/edu/brown/cs/seedebb/brepair/BrepairFaitManager.java:404-427 | A later token that matches the frame pattern with an in-range line number always reaches the server: the trace yields a `STACKSTART` request holding that frame, unless some line number overflows `int`. |
| StackTrace.ParseFramesKeeps | javasrc/edu/brown/cs/seedebb/brepair/BrepairFaitManager.java:405-421 | When the later tokens parse, every token that matches the frame pattern contributes its frame to the request. |
| StackTrace.OneTokenNoRequest | javasrc/edu/brown/cs/seedebb/brepair/BrepairFaitManager.java:395-427 | A one-line trace names only an exception and yields no request. |
| StackTrace.RequestOfExceptionAndRest | javasrc/edu/brown/cs/seedebb/brepair/BrepairFaitManager.java:398-427 | After the exception line, the request is determined by the frames of the rest of the trace alone. |
| StackTrace.ExceptionLineIsNotAFrame | javasrc/edu/brown/cs/seedebb/brepair/BrepairFaitManager.java:398-422 | A frame line alone yields no request, because it is taken as the exception. After an exception line, the same frame line yields exactly its one frame. |
| StackTrace.FrameUntrimmed | javasrc/edu/brown/cs/seedebb/brepair/BrepairFaitManager.java:407 | Trimming leaves a frame-shaped line unchanged. |
| FaitSession.IncrementAndGet | javasrc/edu/brown/cs/seedebb/brepair/BrepairFaitManager.java:102 | The shared counter's increment is `+1` in 32-bit two's complement. |
| FaitSession.NewManager | javasrc/edu/brown/cs/seedebb/brepair/BrepairFaitManager.java:94-103 | A new manager knows nothing of the server and is not started. It has no analysis and holds the id `BREPAIR_<pid>_<incremented counter>`. |
| FaitSession.SessionNameInjective | javasrc/edu/brown/cs/seedebb/brepair/BrepairFaitManager.java:102 | For one process, two session ids are equal exactly when their counter values are. |
| FaitSession.SessionNamesDistinct | javasrc/edu/brown/cs/seedebb/brepair/BrepairFaitManager.java:85-102 | Managers made in turn from one counter get distinct ids for fewer than 2^32 constructions, despite wrap-around. |
| FaitSession.HandleAnalysis | javasrc/edu/brown/cs/seedebb/brepair/BrepairFaitManager.java:526-543 | The state becomes `READY` exactly for a finished analysis, which is kept as the payload; otherwise it becomes `PENDING` and the payload is dropped. Nothing else changes. |
| FaitSession.Receive | javasrc/edu/brown/cs/seedebb/brepair/BrepairFaitManager.java:497-520 | A notification with a missing or foreign id, or of any kind but `ANALYSIS`, changes nothing. Only the state and payload ever change. Validity is preserved. |
| FaitSession.WaitDecision | javasrc/edu/brown/cs/seedebb/brepair/BrepairFaitManager.java:546-564 | The wait continues exactly while the server runs and the analysis is `PENDING`. It returns the payload exactly when the server runs and the analysis is `READY`, and null otherwise. |
| FaitSession.WaitReturnsFinished | javasrc/edu/brown/cs/seedebb/brepair/BrepairFaitManager.java:546-564 | On a valid manager, a returned payload is a finished analysis, never null. |
| FaitSession.NotificationEndsWait | javasrc/edu/brown/cs/seedebb/brepair/BrepairFaitManager.java:526-564 | A finished analysis of the manager's own session ends a wait and returns that notification. A starting or aborted one keeps it waiting. |
| FaitSession.StaleNotificationKeepsWaiting | javasrc/edu/brown/cs/seedebb/brepair/BrepairFaitManager.java:501-502 | A notification for another session leaves the wait decision unchanged. |
| FaitSession.WaitForSetup | javasrc/edu/brown/cs/seedebb/brepair/BrepairFaitManager.java:173-233 | Setup blocks until the launcher reports. It succeeds exactly when the server is left running, and keeps the started flag and payload. |
| FaitSession.SetupOutcomes | javasrc/edu/brown/cs/seedebb/brepair/BrepairFaitManager.java:186-227 | Commands go out in handshake order and stop at the first reply that is not a `RESULT`. Setup succeeds exactly when the server ran and every reply was a `RESULT`, and then the analysis is `PENDING`. |
| FaitSession.SetupSessionAndState | javasrc/edu/brown/cs/seedebb/brepair/BrepairFaitManager.java:197-227 | The session id is replaced only by a non-null id in the reply to `BEGIN`. The state moves only to `PENDING`, or back to `NONE` when `ANALYZE` fails. |
| FaitSession.AttemptsReached | javasrc/edu/brown/cs/seedebb/brepair/BrepairFaitManager.java:336-369 | Every pinged attempt is below 100 and was reached through unanswered attempts that did not end the loop; the loop pings at least once. |
| FaitSession.AttemptsIncreasing | javasrc/edu/brown/cs/seedebb/brepair/BrepairFaitManager.java:336-369 | Attempts are pinged in increasing order. |
| FaitSession.AttemptsSpawnFirst | javasrc/edu/brown/cs/seedebb/brepair/BrepairFaitManager.java:345-353 | The server process is started only right after the first ping. |
| FaitSession.AttemptsAnswered | javasrc/edu/brown/cs/seedebb/brepair/BrepairFaitManager.java:336-370 | The loop reports success exactly when some attempt it reaches is answered. |
| FaitSession.OneAttempt | javasrc/edu/brown/cs/seedebb/brepair/BrepairFaitManager.java:337-368 | One pass pings and, if unanswered, starts the server on the first attempt. It ends the loop on an answer, a failed start or an exited server. |
| FaitSession.LaunchLoop | javasrc/edu/brown/cs/seedebb/brepair/BrepairFaitManager.java:336-370 | The imperative retry loop produces exactly the events and verdict of the recursive description. |
| FaitSession.StartFait | javasrc/edu/brown/cs/seedebb/brepair/BrepairFaitManager.java:251-379 | A second start does nothing. Otherwise the server is marked running exactly when the jar was found and a reached ping was answered. Without the jar nothing is sent, and the event log has the properties above. |
| FlowQuery.LastIndexOf | javasrc/edu/brown/cs/seedebb/brepair/BrepairFaitManager.java:143 | The result is the last position holding the character, or -1 when there is none. |
| FlowQuery.CutSignature | javasrc/edu/brown/cs/seedebb/brepair/BrepairFaitManager.java:142-144 | The cut is a prefix of the signature that ends in `)`, or is empty. No `)` follows it. |
| FlowQuery.CutSignatureLongest | javasrc/edu/brown/cs/seedebb/brepair/BrepairFaitManager.java:143-144 | The cut is at least as long as any prefix ending in `)`. |
| FlowQuery.CutSignatureIdempotent | javasrc/edu/brown/cs/seedebb/brepair/BrepairFaitManager.java:143-144 | Cutting a cut signature changes nothing. |
| FlowQuery.NodeMethod | javasrc/edu/brown/cs/seedebb/brepair/BrepairFaitManager.java:139-146 | The key a node is filed under starts with the node's method name, and is exactly that name when the node has no signature. |
| FlowQuery.NodeMethodDropsReturnType | javasrc/edu/brown/cs/seedebb/brepair/BrepairFaitManager.java:141-146 | The return type is never part of the key: for a signature `p + t` where `p` ends in `)` and `t` holds no `)`, the key is the method name followed by the formatted `p`. |
| FlowQuery.FlowUpdates | javasrc/edu/brown/cs/seedebb/brepair/BrepairFaitManager.java:138-155 | The node loop makes at most one call per node, none with priority 0. |
| FlowQuery.FlowUpdatesAppend | javasrc/edu/brown/cs/seedebb/brepair/BrepairFaitManager.java:138-155 | Nodes are handled independently and in order. |
| FlowQuery.FlowUpdatesSingle | javasrc/edu/brown/cs/seedebb/brepair/BrepairFaitManager.java:139-154 | A node makes no call at priority 0. Otherwise it makes one call with its file, its method name plus the formatted cut signature, its line and its priority. |
| FlowQuery.FlowUpdatesCount | javasrc/edu/brown/cs/seedebb/brepair/BrepairFaitManager.java:150-154 | There is exactly one call per node with a non-zero priority. |
| FlowQuery.ApplyFlow | javasrc/edu/brown/cs/seedebb/brepair/BrepairFaitManager.java:154 | After the calls, the maximum priority covers every call's priority and is the old maximum or one of them. No method is created, and only methods and the maximum change. |
| FlowQuery.ApplyFlowKnownOnly | javasrc/edu/brown/cs/seedebb/brepair/BrepairCountData.java:134-135 | Flow results never create a method record. |
| FlowQuery.RunQuery | javasrc/edu/brown/cs/seedebb/brepair/BrepairFaitManager.java:121-155 | Null is returned. With no request nothing is sent; a parse failure escapes. Otherwise `STACKSTART` goes out, then `FLOWQUERY` exactly when it got a query back. The data changes only through a flow reply's updates. |
| FlowQuery.GetFaitResult | javasrc/edu/brown/cs/seedebb/brepair/BrepairFaitManager.java:119-161 | Nothing is asked of a server that is not running. Otherwise the query runs on the request built from the failing trace, and null is always returned. |
| FlowQuery.NoFramesNoQuery | javasrc/edu/brown/cs/seedebb/brepair/BrepairFaitManager.java:121-122 | A trace without frames sends nothing and changes nothing. |
| FlowQuery.FlowRaisesMaxPriority | javasrc/edu/brown/cs/seedebb/brepair/BrepairFaitManager.java:136-154 | After a full query, the session maximum priority is at least every node's priority. |

## Left out

- `getRelevantFiles`: it asks the Bump client (`findAllClasses`) for class files, a foreign lookup with no logic of its own to state.
- Message transport: sending messages to FAIT and the XML encoding of requests and replies. Replies, notifications and ping answers are inputs, and `null` replies are `None`.
- Threads: `synchronized`, `wait` and `notifyAll`. The launcher thread's outcome is an input to `FaitSession.WaitForSetup` (`AwaitingLaunch` while it has not reported), and `waitForAnalysis` is one decision per wake-up (`FaitSession.WaitDecision`).
- Building the server's command line: JVM arguments, class path, jar lookup paths and log file. Whether the jar exists is a flag of the launcher's probe.
- Sleeps, timeouts, `exitValue` and process start-up are input predicates of the probe (answered, exited, start failed).
- Logging, and the `FOUND` line printed to standard error.
- The random initial value of the id counter and the process id are parameters of `FaitSession.NewManager`.
- `IvyFormat.formatTypeName` is a parameter of the flow query.
- `Math.sqrt` is a parameter, and doubles are reals. Rounding is not modelled, so equal scores are equal and not merely close.
- Counters (`int` in the source) are unbounded naturals; only the session id counter is modelled with 32-bit wrap-around, because only it starts at an arbitrary value and is shared by every manager.
- `String.compareTo` compares UTF-16 code units, while the model compares Dafny characters, which are Unicode scalar values. The two orders agree on strings without supplementary characters (above U+FFFF). A supplementary character is two surrogate code units in Java and sorts below U+E000–U+FFFF there, but above them in the model.
- `BlockComparator` breaks its last tie on `hashCode`, which is unspecified. The model breaks it on the owning method's name and the block id, an injective identity that any such tie-break stands in for.
- `waitForSetup`'s final `waitForAnalysis` call blocks and its result is ignored. `FaitSession.WaitForSetup` stops before it; that wait itself is `FaitSession.WaitDecision`.
- Ranking.ComputeSortedMethods: the threshold properties (within the cut, ties past `max`, block cutoffs) are stated only for a non-negative cutoff and a genuine square root. With a negative cutoff the source recomputes the threshold at every method; the model runs that loop as written, but for that case it states only the ordering and the exclusion of test methods.
- `getSortedMethods` returns the stored listing, the `sortedMethods` field itself.
- `getFaitResult`'s first-call path (lines 115-118): when `is_running` is still unset it calls `setup()` and returns null unless `waitForSetup()` succeeds. That path is `FaitSession.StartFait` and `FaitSession.WaitForSetup`, followed by `FlowQuery.GetFaitResult` with `running` set to the setup outcome.
- `setup()` only starts the launcher thread; its effect is `FaitSession.StartFait`.
- `getFaitResult`'s `getAttrInt`/`getAttrDouble` defaults for missing attributes: a flow node's line and priority are given values (a missing priority is 0).
- A flow node's `FILE` or `METHOD` attribute can be missing, and `getAttrString` then gives null. The model's node names are plain strings. Where the source would look up `"null(...)"` or `null`, that lookup finds no method, so only the session's maximum flow priority moves. The model reproduces this only when the caller passes a name that is not a key of the method records (`FlowQuery.ApplyFlowKnownOnly`).
- `receive` catches the `Error` that an `ERROR` notification throws. The model treats that notification, like any unknown kind, as changing nothing.
