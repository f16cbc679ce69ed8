# Instant-runoff tabulation, modelled in Dafny

This project models the tabulation engine of a small ranked-choice voting program. The engine comes in two variants, and both are modelled as written:

- `src/ranked_choice_voting.py` is the later variant. When a round is a full tie, it tries a second-choice tie-break.
- `core.py` is the earlier variant. It has no tie-break: on a tie it goes round again while any ballot has unread preferences.

An election keeps three kinds of state:

- a registry of candidates, each with an `eliminated` flag;
- a list of ballots, each a ranking plus a cursor, `current_rank`;
- a ledger of rounds.

`run_election` repeats one pass until the pass returns. A pass does the following:

- It counts every ballot's next choice. This always moves every ballot's cursor past the candidate it picks, whether or not that candidate later survives.
- If nobody voted, it ends with "No winner".
- If the count is a full tie, it settles the tie.
- Otherwise, a candidate with a strict majority wins.
- Failing that, every candidate with the fewest votes is eliminated at once, and their names are written on the round. A single survivor wins.

## How the model is built

Candidates are indices into the registry's keys (`Registry.Dedup` of the constructor's names). The `eliminated` flags are one `array<bool>` owned by the election and read by every ballot. This mirrors the `Candidate` objects that the registry and the ballots share in the Python.

A vote count is a sequence of `(candidate, votes)` entries in first-vote order. That is the iteration order of the `defaultdict`, and it is the order in which the majority check, the tie-break and the elimination see the candidates.

The model has three layers.

**Pure specification.**
- `Tabulation.Iteration` and `Tabulation.Run` model one pass and the whole loop of `src/ranked_choice_voting.py`.
- `Core.IterationCore` and `Core.RunCore` model the same for `core.py`.
- A `State` holds the flags, the cursors and the ledger. `Run` terminates on the measure `Unread`: the sum, over all ballots, of `len(rankings) - current_rank`.

**Imperative classes.**
- `Ballots.Ballot` and `RankedChoiceVoting.Election` update their fields in place, as the Python does.
- Each method is proved against the specification. For example, `Election.RunElection` ends in exactly the state, and returns exactly the result, that `Run` computes from the state the call started in. `Core.RunElection` does the same against `RunCore`.

**Properties.**
- Each pass: the ledger grows by one round, flags are only set, and cursors only advance.
- Only the tallied candidates with the minimum count are eliminated.
- A majority ends the loop.
- At least one candidate always survives an elimination. So the "none remaining" branch is never taken.
- Vote totals never increase from round to round.
- The result is a registered name or "No winner", and it can be read off the final ledger.
- The two variants take the same step except on a tie that the later variant resolves differently.
- The test elections of both variants give the results their tests expect, and the ledgers of the runs are stated.

Four behaviours of the code shape the model:

- A count only creates a key when a vote is cast. A candidate with no votes is never tallied, so it is never eliminated.
- The only check on a ballot is the registry lookup, which raises `KeyError` for an unknown name. Empty ballots and repeated names are accepted.
- A ballot's cursor is persistent. Each round reads on from where the previous round stopped; it never rescans from the start.
- The later variant can raise `IndexError`: when a round is a tie, `rankings[0]` is read on every ballot, including an empty one.

## Model

| member | source | states |
|---|---|---|
| Ballots.Ballot.constructor | src/ranked_choice_voting.py:9-11 | a new ballot holds the given ranking with its cursor at 0 |
| Ballots.Ballot.GetNextChoice | src/ranked_choice_voting.py:13-19 | returns the first non-eliminated candidate at or after the old cursor and leaves the cursor one past it; returns None with the cursor at the end when there is none; the cursor stays within the ranking |
| Ballots.Ballot.GetSecondChoice | src/ranked_choice_voting.py:24-27 | `rankings[1]` exactly when the ranking has at least two entries, whether or not that candidate is eliminated |
| Ballots.Ballot.HasMoreChoices | src/ranked_choice_voting.py:21-22 | the body is the model (the cursor is before the end of the ranking); its use is stated by `NextChoiceContract`, which moves the cursor exactly when it held, and `LiveCountPositive` |
| Ballots.NextIndex | src/ranked_choice_voting.py:14-18 | the scan stops at the first non-eliminated entry at or after the cursor: everything it skips is eliminated, and it stops at the end only when no active entry is left |
| Ballots.NextChoiceContract | src/ranked_choice_voting.py:13-22 | the cursor contract of `get_next_choice`: the vote is the first active candidate at or after the cursor and the cursor lands just past it; no vote happens exactly when every remaining entry is eliminated, and the cursor then lands at the end; the cursor never moves back, and it moves exactly when `has_more_choices` held |
| Ballots.VotesAreActive | src/ranked_choice_voting.py:13-19 | a ballot never votes for an eliminated or unregistered candidate |
| Ballots.AdvanceAllWellFormed | src/ranked_choice_voting.py:46-52 | after a count every cursor is still within its ranking and none has moved back |
| Ballots.LiveBounds | src/ranked_choice_voting.py:46-52 | only a ballot with unread preferences votes, and every ballot still unread after the count has voted |
| Ballots.UnreadDrops | src/ranked_choice_voting.py:46-52 | each vote cast uses up at least one unread preference, so the termination measure drops by at least the number of votes |
| Ballots.NoVotesExhausts | src/ranked_choice_voting.py:77-79 | a count in which nobody voted leaves no ballot with more choices |
| Ballots.LiveCountPositive | src/ranked_choice_voting.py:70-71 | `any_ballots_have_more_choices` holds exactly when the number of unread ballots is positive |
| Tallies.AddVote | src/ranked_choice_voting.py:51 | the body is the model of `counts[c] += 1` on an insertion-ordered dict; its properties are `AddVoteKeys`, `AddVoteCounts` and `AddVoteDistinct` |
| Tallies.AddVoteKeys | src/ranked_choice_voting.py:51 | `counts[c] += 1` keeps the key order, and appends `c` at the end exactly when it was missing |
| Tallies.AddVoteCounts | src/ranked_choice_voting.py:51 | the increment adds one vote to `c` and to the total and changes no other count |
| Tallies.AddVoteDistinct | src/ranked_choice_voting.py:51 | the increment never duplicates a key |
| Tallies.RecordFacts | src/ranked_choice_voting.py:49-51 | one ballot's vote, or its absence, changes only the voted key, and keeps keys distinct and counts positive |
| Tallies.TallyOfFacts | src/ranked_choice_voting.py:46-52 | the count's keys are exactly the candidates voted for, with no repeats; each count equals the number of votes for that key and is at least one; the total is the number of ballots that voted, at most the number of ballots |
| Tallies.IsTie | src/ranked_choice_voting.py:67-68 | the body is the model (one distinct count, more than one key); `TieIff` states what it means |
| Tallies.TieIff | src/ranked_choice_voting.py:67-68 | `is_tie` holds exactly when there are at least two keys and all counts are equal |
| Tallies.MinCount | src/ranked_choice_voting.py:111 | the minimum is at most every count and is attained |
| Tallies.MaxCount | src/ranked_choice_voting.py:90 | the maximum is at least every count and is attained |
| Tallies.KeysWithCount | src/ranked_choice_voting.py:112 | a candidate is selected exactly when some entry has it with the given count; selected keys are distinct when the count's keys are |
| Tallies.KeysWithCountOrder | src/ranked_choice_voting.py:112 | the selection distributes over concatenation of counts, so selected keys keep the count's key order |
| Tallies.KeysWithCountOne | src/ranked_choice_voting.py:91 | when exactly one entry has the value, only its key is selected |
| Tallies.KeysWithCountIff | src/ranked_choice_voting.py:112 | being selected is being a key whose count is the value |
| Tallies.FirstOver | src/ranked_choice_voting.py:107-109 | the result is a key whose votes exceed half the total; None exactly when no key's votes do |
| Tallies.MajorityUnique | src/ranked_choice_voting.py:107-109 | at most one entry can exceed half the total, so the iteration order cannot change the winner |
| Tallies.TieHasNoMajority | src/ranked_choice_voting.py:85-109 | in a full tie nobody has a majority |
| Tallies.SingleKeyIsMajority | src/ranked_choice_voting.py:107-109 | a count with one key is that key's majority |
| Tallies.SurvivorExists | src/ranked_choice_voting.py:111-121 | when the count is neither a tie nor won outright, some tallied candidate has more than the minimum and survives the elimination |
| Registry.Dedup | src/ranked_choice_voting.py:38 | the registry keys are the given names without repeats, no more keys than names, and exactly the names when none repeats |
| Registry.DedupFirstOccurrence | src/ranked_choice_voting.py:38 | the keys come in first-occurrence order: of two keys, the earlier one is the one whose name first appears earlier in the list |
| Registry.IndexOf | src/ranked_choice_voting.py:43 | the position of a registered name |
| Registry.IndexOfFirst | src/ranked_choice_voting.py:38 | that position is the name's first occurrence |
| Registry.IndexOfAppend | src/ranked_choice_voting.py:38 | appending a name does not move the first occurrence of an earlier one |
| Registry.ResolveDistinct | src/ranked_choice_voting.py:43 | on a registry without repeats, a ballot resolves to exactly the positions that hold its names |
| Registry.Resolve | src/ranked_choice_voting.py:43 | the lookup succeeds exactly when every name is registered, resolving each name to its own entry in order; otherwise it raises `KeyError` for the first unknown name |
| Registry.ResolveRoundTrip | src/ranked_choice_voting.py:43 | reading the names back from a resolved ballot gives the ballot |
| Registry.ResolveFailsOnUnknown | src/ranked_choice_voting.py:43 | a ballot with any unknown name fails, naming an unknown candidate |
| Registry.Join | src/ranked_choice_voting.py:115 | the body is the model of `", ".join`; `Scenarios.PairsJoined` states the joined names of the tests |
| Registry.EliminateAll | src/ranked_choice_voting.py:63-65 | the body is the model (a flag is set when it was set or the candidate is a loser); `Tabulation.EliminationFacts` states it over a pass |
| Registry.Remaining | src/ranked_choice_voting.py:117 | a candidate is listed exactly when it is registered and not eliminated, in registry order |
| RankedChoiceVoting.Election.constructor | src/ranked_choice_voting.py:37-40 | the registry is the names without repeats with nobody eliminated; there are no ballots and no rounds |
| RankedChoiceVoting.Election.AddBallot | src/ranked_choice_voting.py:42-44 | an unknown name raises `KeyError` and leaves the ballots unchanged; otherwise exactly one new ballot is appended, holding the resolved ranking with its cursor at 0, and the old ballots stay |
| RankedChoiceVoting.Election.CountVotes | src/ranked_choice_voting.py:46-52 | returns the count of one pass and leaves every cursor where that pass puts it |
| RankedChoiceVoting.Election.CountSecondChoiceVotes | src/ranked_choice_voting.py:54-61 | raises `IndexError` exactly when some ballot is empty; otherwise counts, for every ballot whose first choice is tied, its second choice if that one is tied too |
| RankedChoiceVoting.Election.EliminateCandidates | src/ranked_choice_voting.py:63-65 | sets the flag of every loser and changes no other flag |
| RankedChoiceVoting.Election.AnyBallotsHaveMoreChoices | src/ranked_choice_voting.py:70-71 | true exactly when some ballot's cursor is before the end of its ranking |
| RankedChoiceVoting.Election.FindMajority | src/ranked_choice_voting.py:107-109 | the first candidate, in count order, whose votes exceed half of the total |
| RankedChoiceVoting.Election.RunElection | src/ranked_choice_voting.py:73-121 | returns the result, and leaves the flags, cursors and ledger, that `Run` computes from the starting state |
| RankedChoiceVoting.Election.DecideRound | src/ranked_choice_voting.py:77-121 | takes, from the counted state, the step that `Decide` specifies |
| RankedChoiceVoting.Election.EliminateLowest | src/ranked_choice_voting.py:111-121 | takes the step that `Elimination` specifies |
| RankedChoiceVoting.Election.SettleTie | src/ranked_choice_voting.py:85-103 | takes the step that `TieBreak` specifies |
| Tabulation.CountFacts | src/ranked_choice_voting.py:46-52 | one count: keys are distinct, registered and active, each with at least one vote; the total is at most the number of ballots and lies between the unread ballots after the count and those before it; the measure drops by the total; an empty count leaves no ballot with more choices; cursors only advance |
| Tabulation.SecondChoiceTally | src/ranked_choice_voting.py:54-61 | every key of the second-choice count is a tied candidate |
| Tabulation.TieBreakWinner | src/ranked_choice_voting.py:89-93 | a winner is a key of the second-choice count; `UniqueLeaderWins` and `WinnerLeadsUniquely` give both directions of the unique-leader rule |
| Tabulation.UniqueLeaderWins | src/ranked_choice_voting.py:89-93 | a key whose count beats every other key's is the tie-break winner |
| Tabulation.WinnerLeadsUniquely | src/ranked_choice_voting.py:89-93 | the tie-break winner's count beats every other key's |
| Tabulation.TieBreak | src/ranked_choice_voting.py:85-103 | a tie decision moves no cursor and sets no flag; its outcome is stated by `TieBreakFacts` |
| Tabulation.Elimination | src/ranked_choice_voting.py:111-121 | an elimination never raises and moves no cursor; its outcome is stated by `EliminationFacts` |
| Tabulation.Decide | src/ranked_choice_voting.py:77-121 | the decision after a count moves no cursor, and goes round again only on a non-empty count; `EmptyPassFacts`, `TiePassFacts` and `NonTiePassFacts` state each branch |
| Tabulation.TieBreakFacts | src/ranked_choice_voting.py:85-103 | an empty ballot raises `IndexError` before anything is appended; otherwise exactly one tie round is appended, marked broken exactly when the second-choice count has a unique leader; that leader is returned, and without one the election ends with "No winner" exactly when no ballot has more choices |
| Tabulation.Iteration | src/ranked_choice_voting.py:74-121 | a pass keeps the state well formed, and a pass that goes round again strictly shrinks the unread preferences, so the loop terminates |
| Tabulation.EliminationFacts | src/ranked_choice_voting.py:111-121 | without a majority, a flag is set exactly when it already was or the candidate is tallied with the minimum count; the losers' names are joined with ", " on the last round; at least one candidate remains; the pass returns exactly when one remains, naming that candidate |
| Tabulation.EmptyPassFacts | src/ranked_choice_voting.py:77-79 | an empty count appends exactly one round, an empty unbroken tie with nobody eliminated, and returns "No winner" |
| Tabulation.TiePassFacts | src/ranked_choice_voting.py:85-103 | a tie pass keeps the per-pass guarantees of `PassOutcome` |
| Tabulation.NonTiePassFacts | src/ranked_choice_voting.py:105-121 | a non-tie pass keeps the per-pass guarantees of `PassOutcome` |
| Tabulation.IterationFacts | src/ranked_choice_voting.py:74-121 | every pass appends exactly one round (none when it raises), only sets flags, only advances cursors, bounds the round's total by the unread ballots, and returns only in a terminal state or with `IndexError` from an empty ballot |
| Tabulation.MajorityEndsLoop | src/ranked_choice_voting.py:105-109 | a count with a majority returns that name, and its round, unmarked, is the last ledger entry |
| Tabulation.OnlyMinimumEliminated | src/ranked_choice_voting.py:111-114 | a pass eliminates nobody, or exactly the tallied candidates with the minimum count after a non-tie count without a majority |
| Tabulation.StepKeepsTotals | src/ranked_choice_voting.py:74-121 | the per-pass guarantees keep round totals non-increasing |
| Tabulation.Run | src/ranked_choice_voting.py:73-121 | the loop, terminating on the unread preferences; `RunFacts` and `RunResult` state its properties, and `Election.RunElection` is proved against it |
| Tabulation.RunFacts | src/ranked_choice_voting.py:73-121 | over a whole run: the ledger only grows, by at least one round unless an exception escapes; flags are only set; cursors only advance; round totals never increase; a returned value is terminal; an exception is `IndexError` from an empty ballot |
| Tabulation.RunResult | src/ranked_choice_voting.py:73-121 | `run_election` returns a registered name or "No winner", or raises `IndexError` when a ballot is empty |
| Core.DecideCore | core.py:60-92 | core.py's decision never raises, moves no cursor, and goes round again only on a non-empty count; `CoreTieFacts` states its tie branch |
| Core.IterationCore | core.py:59-92 | a pass of core.py keeps the state well formed, never raises, and strictly shrinks the unread preferences when it goes round again |
| Core.VariantsAgree | core.py:68-76 | the two variants take the same step exactly when the pass is not a tie that the later variant settles differently: by an empty ballot or by a unique second-choice leader |
| Core.TieVariants | core.py:70-76 | the tie case of the agreement between the variants |
| Core.CoreTieFacts | core.py:68-76 | a tie pass appends the counted round as an unbroken tie with nobody eliminated and changes no flag; it ends with "No winner" exactly when no ballot has more choices, and goes round again otherwise |
| Core.IterationCoreFacts | core.py:58-92 | every pass of core.py appends exactly one round, never marked as a broken tie, and keeps the per-pass guarantees |
| Core.NoTieBrokenExtends | core.py:70 | appending a round that is not a broken tie keeps the ledger free of broken ties |
| Core.RunCore | core.py:58-92 | the loop of core.py, terminating on the unread preferences; `RunCoreFacts` and `RunCoreResult` state its properties, and `Core.RunElection` is proved against it |
| Core.RunCoreFacts | core.py:58-92 | over a whole run of core.py: the ledger grows by at least one round; flags are only set; cursors only advance; totals never increase; no tie is ever broken; the result is terminal |
| Core.RunCoreResult | core.py:58-92 | core.py returns a registered name or "No winner", and a name never comes from a tie round |
| Core.RunElection | core.py:58-92 | returns the result, and leaves the flags, cursors and ledger, that `RunCore` computes from the starting state |
| Core.DecideRound | core.py:62-92 | takes, from the counted state, the step that `DecideCore` specifies |
| Scenarios.SimpleMajorityByName | src/test_ranked_choice_voting.py:21-31 | the test's names form the registry as given, and its ballots resolve to the rankings `SimpleMajorityWinner` runs |
| Scenarios.BiggestLosersByName | src/test_ranked_choice_voting.py:32-42 | the same for "Tie for biggest losers" and `TieForBiggestLosers` |
| Scenarios.TieAllTheWayByName | src/test_ranked_choice_voting.py:43-53 | the same for "Tie all the way" and the rotated ballots of `TieAllTheWay` |
| Scenarios.CoreSimpleMajorityByName | core.py:126-136 | the same for core.py's "Simple Majority Winner" |
| Scenarios.CoreRunoffByName | core.py:137-147 | the same for core.py's "Runoff Required" |
| Scenarios.CoreTieResultByName | core.py:148-158 | the same for core.py's "Tie Result" |
| Scenarios.CountWithNoneEliminated | src/ranked_choice_voting.py:13-19 | with nobody eliminated, a ballot votes for the entry under its cursor, and the cursor moves on by one |
| Scenarios.UnbrokenTie | src/ranked_choice_voting.py:97-103 | a tie that the second choices leave unbroken is decided the same way by both variants: "No winner" when no ballot has more choices, otherwise another round |
| Scenarios.SimpleMajorityWinner | src/test_ranked_choice_voting.py:21-31 | "Simple Majority Winner" elects Dilbert in one round |
| Scenarios.TieForBiggestLosers | src/test_ranked_choice_voting.py:32-42 | "Tie for biggest losers" eliminates Dilbert and Alice together in round 1 and elects Wally |
| Scenarios.RotationNeverBreaks | src/ranked_choice_voting.py:89-93 | on the rotated ballots every tied candidate gets one second-choice vote, so there is no unique leader |
| Scenarios.RotationRun | src/test_ranked_choice_voting.py:43-53 | the rotated ballots tie in every round from any round on, and the run ends with "No winner" |
| Scenarios.TieAllTheWay | src/test_ranked_choice_voting.py:43-53 | "Tie all the way" ends with "No winner" after four unbroken tie rounds, with nobody eliminated |
| Scenarios.CoreSimpleMajorityWinner | core.py:126-136 | "Simple Majority Winner" elects Alice in one round, counted 3 for Alice and 1 for Bob |
| Scenarios.CoreRunoffRequired | core.py:137-147 | "Runoff Required" eliminates "Alice, Bob" in round 1 and elects Charlie |
| Scenarios.CoreRotationRun | core.py:148-158 | under core.py the rotated ballots tie in every round from any round on, and nobody wins |
| Scenarios.CoreTieResult | core.py:148-158 | "Tie Result" ends with "No winner" after four tie rounds, with nobody eliminated |

## Left out

- Console output (`print_results`, the `print` inside `run_election`, `run_test`), the graphical and command-line shells, and JSON persistence: these are output and I/O only.
- `run_all_tests` is not modelled as a procedure. Its expected results are stated as lemmas in `Scenarios`.
- The "Complex multi-round election" and "Tie-breaking with second choice votes" tests (src/test_ranked_choice_voting.py:54-80) are not stated as lemmas. The code advances every ballot's cursor in every round, so it does not produce the winners those tests expect.
- `Candidate` objects are not modelled as such. A candidate is a registry index with a shared flag, and `Round.vote_counts` is keyed by index. Names are recovered through the registry when a result or the eliminated names are formed.
- A repeated name in the constructor's list keeps its first position in the registry, and the later object replaces the earlier one. Since the model has no candidate objects, only the key order is modelled.
- `votes > total_votes / 2` uses float division. It is modelled as the exact comparison `2 * votes > total_votes`. The two agree whenever the total is at most 2^53, where `total_votes / 2` is exact; the total never exceeds the number of ballots.
- Exceptions are modelled as `Err` results: `KeyError` in `add_ballot`, and `IndexError` in the tie-break.
- `Round` of core.py has no `tie_broken` attribute. Its rounds are the shared `Round` with `tieBroken` false.
- `RankedChoiceVoting.Election.DecideRound`, `EliminateLowest` and `SettleTie` are pieces of the body of `run_election`, split into methods. The Python has no such methods.
