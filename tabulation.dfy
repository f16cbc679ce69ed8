/**
 * The tabulation loop of `Election.run_election` in src/ranked_choice_voting.py,
 * as a function of the election's state: one `Iteration` per pass of the
 * `while True` loop, and `Run`, which repeats it until a pass returns.
 */
module Tabulation {
  import opened Wrappers
  import opened Tallies
  import opened Ballots
  import opened Registry

  const NoWinner: string := "No winner"

  /** One ledger entry. `eliminatedCandidate` is the ", "-joined names, set after the round is appended. */
  datatype Round = Round(voteCounts: Tally, eliminatedCandidate: Option<string>, isTie: bool, tieBroken: bool)

  /** What the loop changes: elimination flags, ballot cursors and the ledger. */
  datatype State = State(eliminated: seq<bool>, cursors: seq<nat>, rounds: seq<Round>)

  /** A pass of the loop either returns (a name, "No winner", or an exception) or goes round again. */
  datatype Step = Stop(result: Result<string, Error>, state: State) | Continue(state: State)

  predicate WellFormed(names: seq<string>, rankings: seq<seq<nat>>, s: State)
  {
    |s.eliminated| == |names| && WellFormedBallots(rankings, s.cursors, |names|)
  }

  predicate KeysBelow(t: Tally, n: nat)
  {
    forall i :: 0 <= i < |t| ==> t[i].candidate < n
  }

  function Last(rounds: seq<Round>): Round
    requires rounds != []
  {
    rounds[|rounds| - 1]
  }

  /** The count that `count_votes` returns in state `s`. */
  function RoundCount(rankings: seq<seq<nat>>, s: State): Tally
    requires WellFormedBallots(rankings, s.cursors, |s.eliminated|)
  {
    TallyOf(Votes(rankings, s.cursors, s.eliminated))
  }

  /** The state after `count_votes`: every ballot's cursor advanced past its vote. */
  function AfterCount(rankings: seq<seq<nat>>, s: State): State
    requires WellFormedBallots(rankings, s.cursors, |s.eliminated|)
  {
    s.(cursors := AdvanceAll(rankings, s.cursors, s.eliminated))
  }

  /**
   * What one `count_votes` call guarantees: each key is a registered, active
   * candidate with at least one vote; each ballot gives at most one vote, and
   * only a ballot that had unread preferences votes; a ballot still unread
   * afterwards has voted; and the votes cast use up that many unread preferences.
   */
  lemma CountFacts(names: seq<string>, rankings: seq<seq<nat>>, s: State)
    requires WellFormed(names, rankings, s)
    ensures var counts := RoundCount(rankings, s);
      && DistinctKeys(counts) && Positive(counts) && KeysBelow(counts, |names|)
      && (forall i :: 0 <= i < |counts| ==> !s.eliminated[counts[i].candidate])
      && Total(counts) <= |rankings|
      && Total(counts) <= LiveCount(rankings, s.cursors)
      && LiveCount(rankings, AfterCount(rankings, s).cursors) <= Total(counts)
      && Unread(rankings, AfterCount(rankings, s).cursors) + Total(counts) <= Unread(rankings, s.cursors)
      && (counts == [] ==> !AnyMoreChoices(rankings, AfterCount(rankings, s).cursors))
    ensures WellFormed(names, rankings, AfterCount(rankings, s))
    ensures forall i :: 0 <= i < |rankings| ==> s.cursors[i] <= AfterCount(rankings, s).cursors[i]
  {
    var votes := Votes(rankings, s.cursors, s.eliminated);
    var counts := TallyOf(votes);
    TallyOfFacts(votes);
    VotesAreActive(rankings, s.cursors, s.eliminated);
    forall i | 0 <= i < |counts| ensures counts[i].candidate < |names| && !s.eliminated[counts[i].candidate] {
      assert Keys(counts)[i] == counts[i].candidate;
      assert counts[i].candidate in Keys(counts);
      assert Some(counts[i].candidate) in votes;
    }
    AdvanceAllWellFormed(rankings, s.cursors, s.eliminated);
    LiveBounds(rankings, s.cursors, s.eliminated);
    UnreadDrops(rankings, s.cursors, s.eliminated);
    if counts == [] {
      NoVotesExhausts(rankings, s.cursors, s.eliminated);
    }
  }

  /**
   * The non-tie end of a pass, shared by both variants; the round with `counts`
   * has already been appended. A majority returns at once; otherwise the
   * candidates with the fewest votes are eliminated.
   */
  function MajorityOrElimination(names: seq<string>, s: State, counts: Tally): (step: Step)
    requires |s.eliminated| == |names| && s.rounds != [] && counts != [] && KeysBelow(counts, |names|)
    ensures step.Stop? ==> step.result.Ok?
    ensures step.state.cursors == s.cursors && |step.state.eliminated| == |names|
  {
    match Majority(counts)
    case Some(c) =>
      assert exists i :: 0 <= i < |counts| && counts[i].candidate == c;
      Stop(Ok(names[c]), s)
    case None => Elimination(names, s, counts)
  }

  /**
   * Every key with the minimum count is eliminated and their names are written
   * on the last round; a single remaining candidate wins, and none remaining
   * ends the election without a winner.
   */
  function Elimination(names: seq<string>, s: State, counts: Tally): (step: Step)
    requires |s.eliminated| == |names| && s.rounds != [] && counts != [] && KeysBelow(counts, |names|)
    ensures step.Stop? ==> step.result.Ok?
    ensures step.state.cursors == s.cursors && |step.state.eliminated| == |names|
  {
    var losers := KeysWithCount(counts, MinCount(counts));
    assert forall j :: 0 <= j < |losers| ==> losers[j] < |names| by {
      forall j | 0 <= j < |losers| ensures losers[j] < |names| {
        assert losers[j] in losers;
        var i :| 0 <= i < |counts| && counts[i].candidate == losers[j] && counts[i].votes == MinCount(counts);
      }
    }
    EliminateLosers(names, s, losers)
  }

  /**
   * Sets the flags of `losers`, writes their names on the last round, and
   * stops when one candidate or none is left.
   */
  function EliminateLosers(names: seq<string>, s: State, losers: seq<nat>): (step: Step)
    requires |s.eliminated| == |names| && s.rounds != []
    requires forall j :: 0 <= j < |losers| ==> losers[j] < |names|
    ensures step.Stop? ==> step.result.Ok?
    ensures step.state.cursors == s.cursors && |step.state.eliminated| == |names|
  {
    var marked := Last(s.rounds).(eliminatedCandidate := Some(Join(NamesOf(names, losers), ", ")));
    var t := s.(eliminated := EliminateAll(s.eliminated, losers), rounds := s.rounds[..|s.rounds| - 1] + [marked]);
    var remaining := Remaining(t.eliminated);
    if |remaining| == 1 then
      assert remaining[0] in remaining;
      Stop(Ok(names[remaining[0]]), t)
    else if |remaining| == 0 then Stop(Ok(NoWinner), t)
    else Continue(t)
  }

  /** The tie-break candidate vote of one ballot: `rankings[1]` when both of its first two entries are tied. */
  function SecondChoice(r: seq<nat>, tied: seq<nat>): Option<nat>
    requires r != []
  {
    if r[0] in tied && |r| > 1 && r[1] in tied then Some(r[1]) else None
  }

  /** The tie-break vote of every ballot, in ballot order. */
  function SecondChoices(rankings: seq<seq<nat>>, tied: seq<nat>): (votes: seq<Option<nat>>)
    requires [] !in rankings
    ensures |votes| == |rankings|
    ensures forall c: nat :: Some(c) in votes ==> c in tied
  {
    seq(|rankings|, i requires 0 <= i < |rankings| => SecondChoice(rankings[i], tied))
  }

  /** `count_second_choice_votes(tied)` on ballots none of which is empty. */
  function SecondChoiceTally(rankings: seq<seq<nat>>, tied: seq<nat>): (t: Tally)
    requires [] !in rankings
    ensures forall c: nat :: c in Keys(t) ==> c in tied
  {
    TallyOfFacts(SecondChoices(rankings, tied));
    TallyOf(SecondChoices(rankings, tied))
  }

  /** The one key with the largest count, if there is exactly one such key. */
  function TieBreakWinner(second: Tally): (w: Option<nat>)
    ensures w.Some? ==> w.value in Keys(second)
  {
    if second == [] then None
    else
      var winners := KeysWithCount(second, MaxCount(second));
      if |winners| == 1 then
        assert winners[0] in winners;
        var i :| 0 <= i < |second| && second[i].candidate == winners[0] && second[i].votes == MaxCount(second);
        assert Keys(second)[i] == winners[0];
        Some(winners[0])
      else None
  }

  /**
   * The tie branch of the later variant (the round is not yet appended): a unique
   * second-choice leader wins; otherwise the election ends without a winner when
   * no ballot has unread preferences, and goes round again when some have.
   */
  function TieBreak(names: seq<string>, rankings: seq<seq<nat>>, s: State, counts: Tally): (step: Step)
    requires |s.eliminated| == |names| && |s.cursors| == |rankings| && KeysBelow(counts, |names|)
    ensures step.state.cursors == s.cursors && step.state.eliminated == s.eliminated
  {
    if [] in rankings then Stop(Err(IndexError), s)
    else
      var winner := TieBreakWinner(SecondChoiceTally(rankings, Keys(counts)));
      if winner.Some? then
        assert exists i :: 0 <= i < |counts| && Keys(counts)[i] == winner.value;
        Stop(Ok(names[winner.value]), s.(rounds := s.rounds + [Round(counts, None, true, true)]))
      else
        var t := s.(rounds := s.rounds + [Round(counts, None, true, false)]);
        if !AnyMoreChoices(rankings, s.cursors) then Stop(Ok(NoWinner), t) else Continue(t)
  }

  /**
   * What a pass of the later variant does once the votes are counted, from the
   * state `counted` after counting: an empty count ends without a winner, a tie
   * goes to the tie-break, anything else to the majority check.
   */
  function Decide(names: seq<string>, rankings: seq<seq<nat>>, counted: State, counts: Tally): (step: Step)
    requires |counted.eliminated| == |names| && |counted.cursors| == |rankings| && KeysBelow(counts, |names|)
    ensures step.state.cursors == counted.cursors && |step.state.eliminated| == |names|
    ensures step.Continue? ==> counts != []
  {
    if counts == [] then
      Stop(Ok(NoWinner), counted.(rounds := counted.rounds + [Round([], None, true, false)]))
    else if IsTie(counts) then TieBreak(names, rankings, counted, counts)
    else MajorityOrElimination(names, counted.(rounds := counted.rounds + [Round(counts, None, false, false)]), counts)
  }

  /** One pass of the `while True` loop of src/ranked_choice_voting.py. */
  function Iteration(names: seq<string>, rankings: seq<seq<nat>>, s: State): (step: Step)
    requires WellFormed(names, rankings, s)
    ensures WellFormed(names, rankings, step.state)
    ensures step.Continue? ==> Unread(rankings, step.state.cursors) < Unread(rankings, s.cursors)
  {
    CountFacts(names, rankings, s);
    var counts := RoundCount(rankings, s);
    assert counts != [] ==> Total(counts) >= 1 by {
      if counts != [] {
        EntryAtMostTotal(counts, 0);
      }
    }
    Decide(names, rankings, AfterCount(rankings, s), counts)
  }

  /** `run_election` of src/ranked_choice_voting.py: passes until one returns. */
  function Run(names: seq<string>, rankings: seq<seq<nat>>, s: State): (Result<string, Error>, State)
    requires WellFormed(names, rankings, s)
    decreases Unread(rankings, s.cursors)
  {
    match Iteration(names, rankings, s)
    case Stop(r, t) => (r, t)
    case Continue(t) => Run(names, rankings, t)
  }

  /** Rounds already in the ledger stay; new ones are added at the end. */
  predicate LedgerExtends(before: seq<Round>, after: seq<Round>)
  {
    |before| <= |after| && after[..|before|] == before
  }

  /** Elimination flags are set, never cleared. */
  predicate FlagsOnlySet(before: seq<bool>, after: seq<bool>)
  {
    |before| == |after| && forall c :: 0 <= c < |before| && before[c] ==> after[c]
  }

  /** Cursors are never rewound. */
  predicate CursorsOnlyAdvance(before: seq<nat>, after: seq<nat>)
  {
    |before| == |after| && forall i :: 0 <= i < |before| ==> before[i] <= after[i]
  }

  /** From round `from` on, each round's vote total is at most the previous one's. */
  predicate TotalsNonIncreasing(rounds: seq<Round>, from: nat)
  {
    forall i :: from <= i && i + 1 < |rounds| ==> Total(rounds[i + 1].voteCounts) <= Total(rounds[i].voteCounts)
  }

  /** The ballots still unread are no more than the votes of the last round (once a round exists past `from`). */
  predicate LiveWithinLast(rankings: seq<seq<nat>>, s: State, from: nat)
    requires |s.cursors| == |rankings|
  {
    |s.rounds| > from ==> LiveCount(rankings, s.cursors) <= Total(Last(s.rounds).voteCounts)
  }

  /**
   * How one pass of either variant may change the state: the ledger gets exactly
   * one round (none when an exception escapes), flags are only set, cursors only
   * advance, and the new round's total lies between the unread ballots after the
   * pass and those before it.
   */
  predicate StepKeeps(names: seq<string>, rankings: seq<seq<nat>>, s: State, step: Step)
    requires WellFormed(names, rankings, s) && WellFormed(names, rankings, step.state)
  {
    var t := step.state;
    && LedgerExtends(s.rounds, t.rounds)
    && FlagsOnlySet(s.eliminated, t.eliminated)
    && CursorsOnlyAdvance(s.cursors, t.cursors)
    && (if step.Stop? && step.result.Err? then t.rounds == s.rounds else |t.rounds| == |s.rounds| + 1)
    && LiveCount(rankings, t.cursors) <= LiveCount(rankings, s.cursors)
    && (|t.rounds| > |s.rounds| ==>
          Total(Last(t.rounds).voteCounts) <= LiveCount(rankings, s.cursors) &&
          LiveCount(rankings, t.cursors) <= Total(Last(t.rounds).voteCounts))
  }

  /**
   * How the election can end with result `result`, read off the final state: a
   * tie with no unread preferences left and no winner; a tie broken by a unique
   * second-choice leader; a strict majority in the last round; or an elimination
   * that left exactly one candidate standing.
   */
  predicate Terminal(names: seq<string>, rankings: seq<seq<nat>>, result: string, s: State)
    requires WellFormed(names, rankings, s)
  {
    s.rounds != [] &&
    var last := Last(s.rounds);
    || (result == NoWinner && last.isTie && !last.tieBroken && !AnyMoreChoices(rankings, s.cursors))
    || (last.isTie && last.tieBroken && [] !in rankings &&
        var w := TieBreakWinner(SecondChoiceTally(rankings, Keys(last.voteCounts)));
        w.Some? && w.value < |names| && result == names[w.value])
    || (!last.isTie && last.eliminatedCandidate.None? &&
        var m := Majority(last.voteCounts);
        m.Some? && m.value < |names| && result == names[m.value])
    || (!last.isTie && last.eliminatedCandidate.Some? &&
        var remaining := Remaining(s.eliminated);
        |remaining| == 1 && remaining[0] < |names| && result == names[remaining[0]])
  }

  /** The precondition shared by the lemmas about the non-tie end of a pass. */
  predicate NonTieReady(names: seq<string>, s: State, counts: Tally)
  {
    && |s.eliminated| == |names| && s.rounds != [] && counts != []
    && KeysBelow(counts, |names|) && DistinctKeys(counts) && Positive(counts) && !IsTie(counts)
    && (forall i :: 0 <= i < |counts| ==> !s.eliminated[counts[i].candidate])
  }

  /** A majority returns that candidate and changes nothing. */
  lemma MajorityWins(names: seq<string>, s: State, counts: Tally)
    requires NonTieReady(names, s, counts) && Majority(counts).Some?
    ensures Majority(counts).value < |names|
    ensures MajorityOrElimination(names, s, counts) == Stop(Ok(names[Majority(counts).value]), s)
  {
    var c := Majority(counts).value;
    var i :| 0 <= i < |counts| && counts[i].candidate == c && 2 * counts[i].votes > Total(counts);
  }

  /**
   * Without a majority, exactly the keys with the minimum count are eliminated and
   * their names are written on the last round; at least one candidate always
   * remains, so the branch for no candidates left is never taken, and the pass
   * returns exactly when one candidate is left, naming that candidate.
   */
  lemma EliminationFacts(names: seq<string>, s: State, counts: Tally)
    requires NonTieReady(names, s, counts) && Majority(counts).None?
    ensures var step := MajorityOrElimination(names, s, counts);
      var t := step.state;
      var losers := KeysWithCount(counts, MinCount(counts));
      && (forall j :: 0 <= j < |losers| ==> losers[j] < |names|)
      && t.cursors == s.cursors
      && t.rounds == s.rounds[..|s.rounds| - 1] + [Last(s.rounds).(eliminatedCandidate := Some(Join(NamesOf(names, losers), ", ")))]
      && (forall c :: 0 <= c < |names| ==>
            (t.eliminated[c] <==> s.eliminated[c] || (c in Keys(counts) && CountOf(counts, c) == MinCount(counts))))
      && |t.eliminated| == |names|
      && |Remaining(t.eliminated)| >= 1
      && (step.Stop? <==> |Remaining(t.eliminated)| == 1)
      && (step.Stop? ==> Remaining(t.eliminated)[0] < |names| && step.result == Ok(names[Remaining(t.eliminated)[0]]))
  {
    var losers := KeysWithCount(counts, MinCount(counts));
    var t := MajorityOrElimination(names, s, counts).state;
    forall c | 0 <= c < |names|
      ensures t.eliminated[c] <==> s.eliminated[c] || (c in Keys(counts) && CountOf(counts, c) == MinCount(counts))
    {
      KeysWithCountIff(counts, MinCount(counts), c);
    }
    var i := SurvivorExists(counts);
    assert counts[i].candidate in Remaining(t.eliminated);
    if |Remaining(t.eliminated)| == 1 {
      assert Remaining(t.eliminated)[0] in Remaining(t.eliminated);
    }
  }

  /**
   * The tie branch of the later variant, on the state after counting: nothing is
   * eliminated and no cursor moves; an empty ballot raises before anything is
   * appended; otherwise one tie round is appended, marked broken exactly when
   * the second-choice count has a unique leader, who is then returned.
   */
  lemma TieBreakFacts(names: seq<string>, rankings: seq<seq<nat>>, s: State, counts: Tally)
    requires WellFormed(names, rankings, s) && KeysBelow(counts, |names|)
    ensures var step := TieBreak(names, rankings, s, counts);
      var t := step.state;
      && t.eliminated == s.eliminated && t.cursors == s.cursors
      && (step.Stop? && step.result.Err? ==> t.rounds == s.rounds && step.result.error == IndexError && [] in rankings)
      && (!(step.Stop? && step.result.Err?) ==>
            [] !in rankings &&
            var w := TieBreakWinner(SecondChoiceTally(rankings, Keys(counts)));
            && t.rounds == s.rounds + [Round(counts, None, true, w.Some?)]
            && (w.Some? ==> w.value < |names| && step == Stop(Ok(names[w.value]), t))
            && (w.None? ==> (step.Stop? <==> !AnyMoreChoices(rankings, s.cursors)))
            && (w.None? && step.Stop? ==> step.result == Ok(NoWinner)))
  {
  }

  /**
   * What a pass guarantees: `StepKeeps`, a returned name read off the final
   * state as `Terminal` says, and an exception only from an empty ballot.
   */
  predicate PassOutcome(names: seq<string>, rankings: seq<seq<nat>>, s: State, step: Step)
    requires WellFormed(names, rankings, s) && WellFormed(names, rankings, step.state)
  {
    && StepKeeps(names, rankings, s, step)
    && match step
       case Stop(Ok(x), t) => Terminal(names, rankings, x, t)
       case Stop(Err(e), _) => e == IndexError && [] in rankings
       case Continue(_) => true
  }

  /** The pass when nobody voted: one empty tie round, and "No winner". */
  lemma EmptyPassFacts(names: seq<string>, rankings: seq<seq<nat>>, s: State)
    requires WellFormed(names, rankings, s) && RoundCount(rankings, s) == []
    ensures Iteration(names, rankings, s).Stop? && Iteration(names, rankings, s).result == Ok(NoWinner)
    ensures Iteration(names, rankings, s).state.rounds == s.rounds + [Round([], None, true, false)]
    ensures PassOutcome(names, rankings, s, Iteration(names, rankings, s))
  {
    CountFacts(names, rankings, s);
  }

  /** A tie pass of the later variant. */
  lemma TiePassFacts(names: seq<string>, rankings: seq<seq<nat>>, s: State)
    requires WellFormed(names, rankings, s) && RoundCount(rankings, s) != [] && IsTie(RoundCount(rankings, s))
    ensures PassOutcome(names, rankings, s, Iteration(names, rankings, s))
  {
    CountFacts(names, rankings, s);
    var counts := RoundCount(rankings, s);
    var counted := AfterCount(rankings, s);
    assert Iteration(names, rankings, s) == TieBreak(names, rankings, counted, counts);
    TieBreakFacts(names, rankings, counted, counts);
  }

  /** A non-tie pass of the later variant. */
  lemma NonTiePassFacts(names: seq<string>, rankings: seq<seq<nat>>, s: State)
    requires WellFormed(names, rankings, s) && RoundCount(rankings, s) != [] && !IsTie(RoundCount(rankings, s))
    ensures PassOutcome(names, rankings, s, Iteration(names, rankings, s))
  {
    CountFacts(names, rankings, s);
    var counts := RoundCount(rankings, s);
    var appended := AfterCount(rankings, s).(rounds := s.rounds + [Round(counts, None, false, false)]);
    var step := MajorityOrElimination(names, appended, counts);
    assert Iteration(names, rankings, s) == step;
    if Majority(counts).Some? {
      MajorityWins(names, appended, counts);
    } else {
      EliminationFacts(names, appended, counts);
      assert step.state.rounds[..|s.rounds|] == s.rounds;
    }
  }

  /** Every pass of the later variant keeps `StepKeeps` and, when it returns, ends in a `Terminal` state. */
  lemma IterationFacts(names: seq<string>, rankings: seq<seq<nat>>, s: State)
    requires WellFormed(names, rankings, s)
    ensures PassOutcome(names, rankings, s, Iteration(names, rankings, s))
  {
    var counts := RoundCount(rankings, s);
    if counts == [] {
      EmptyPassFacts(names, rankings, s);
    } else if IsTie(counts) {
      TiePassFacts(names, rankings, s);
    } else {
      NonTiePassFacts(names, rankings, s);
    }
  }

  /** A candidate with more than half of a round's votes is returned by that pass, which eliminates nobody. */
  lemma MajorityEndsLoop(names: seq<string>, rankings: seq<seq<nat>>, s: State)
    requires WellFormed(names, rankings, s)
    requires Majority(RoundCount(rankings, s)).Some?
    ensures var c := Majority(RoundCount(rankings, s)).value;
      c < |names| &&
      Iteration(names, rankings, s) ==
        Stop(Ok(names[c]), AfterCount(rankings, s).(rounds := s.rounds + [Round(RoundCount(rankings, s), None, false, false)]))
  {
    CountFacts(names, rankings, s);
    var counts := RoundCount(rankings, s);
    if IsTie(counts) {
      TieHasNoMajority(counts);
    }
    MajorityWins(names, AfterCount(rankings, s).(rounds := s.rounds + [Round(counts, None, false, false)]), counts);
  }

  /**
   * A pass eliminates exactly the tallied candidates with the minimum count, or
   * nobody; it never eliminates in a tie, and never a candidate that got no vote.
   */
  lemma OnlyMinimumEliminated(names: seq<string>, rankings: seq<seq<nat>>, s: State)
    requires WellFormed(names, rankings, s)
    ensures var counts := RoundCount(rankings, s);
      var t := Iteration(names, rankings, s).state;
      || t.eliminated == s.eliminated
      || (&& counts != [] && !IsTie(counts) && Majority(counts).None?
          && forall c :: 0 <= c < |names| ==>
               (t.eliminated[c] <==> s.eliminated[c] || (c in Keys(counts) && CountOf(counts, c) == MinCount(counts))))
  {
    CountFacts(names, rankings, s);
    var counts := RoundCount(rankings, s);
    var appended := AfterCount(rankings, s).(rounds := s.rounds + [Round(counts, None, false, false)]);
    if counts != [] && !IsTie(counts) {
      if Majority(counts).Some? {
        MajorityWins(names, appended, counts);
      } else {
        EliminationFacts(names, appended, counts);
      }
    }
  }

  /** A key whose count beats every other key's is the tie-break winner. */
  lemma UniqueLeaderWins(second: Tally, k: nat)
    requires k < |second|
    requires forall i :: 0 <= i < |second| && i != k ==> second[i].votes < second[k].votes
    ensures TieBreakWinner(second) == Some(second[k].candidate)
  {
    var max := MaxCount(second);
    var j :| 0 <= j < |second| && second[j].votes == max;
    assert j == k;
    KeysWithCountOne(second, max, k);
  }

  /** The tie-break winner's count beats every other key's. */
  lemma WinnerLeadsUniquely(second: Tally)
    requires DistinctKeys(second) && TieBreakWinner(second).Some?
    ensures exists k :: (0 <= k < |second| && second[k].candidate == TieBreakWinner(second).value &&
                         forall i :: 0 <= i < |second| && i != k ==> second[i].votes < second[k].votes)
  {
    var max := MaxCount(second);
    var winners := KeysWithCount(second, max);
    assert winners[0] in winners;
    var k :| 0 <= k < |second| && second[k].candidate == winners[0] && second[k].votes == max;
    assert winners == [winners[0]];
    forall i | 0 <= i < |second| && i != k ensures second[i].votes < second[k].votes {
      assert second[i].candidate != second[k].candidate;
      assert second[i].candidate !in winners;
    }
  }

  /** Transitivity of the per-pass guarantees, for the ledger totals. */
  lemma StepKeepsTotals(names: seq<string>, rankings: seq<seq<nat>>, s: State, step: Step, from: nat)
    requires WellFormed(names, rankings, s) && WellFormed(names, rankings, step.state)
    requires StepKeeps(names, rankings, s, step)
    requires from <= |s.rounds| && TotalsNonIncreasing(s.rounds, from) && LiveWithinLast(rankings, s, from)
    ensures TotalsNonIncreasing(step.state.rounds, from) && LiveWithinLast(rankings, step.state, from)
  {
    var t := step.state;
    if |t.rounds| > |s.rounds| {
      forall i | from <= i && i + 1 < |t.rounds|
        ensures Total(t.rounds[i + 1].voteCounts) <= Total(t.rounds[i].voteCounts)
      {
        assert t.rounds[..|s.rounds|] == s.rounds;
        if i + 1 < |s.rounds| {
          assert t.rounds[i] == s.rounds[i] && t.rounds[i + 1] == s.rounds[i + 1];
        } else {
          assert i + 1 == |s.rounds| && t.rounds[i] == Last(s.rounds);
        }
      }
    }
  }

  /**
   * Over a whole run of the later variant: the ledger only grows, by at least
   * one round unless an exception escapes; flags are only set and cursors only
   * advance; vote totals never increase from round to round; and the result is
   * read off the final state as `Terminal` says, or is the `IndexError` that an
   * empty ballot raises in a tie.
   */
  lemma {:induction false} RunFacts(names: seq<string>, rankings: seq<seq<nat>>, s: State, from: nat)
    requires WellFormed(names, rankings, s)
    requires from <= |s.rounds| && TotalsNonIncreasing(s.rounds, from) && LiveWithinLast(rankings, s, from)
    ensures var (r, t) := Run(names, rankings, s);
      && WellFormed(names, rankings, t)
      && LedgerExtends(s.rounds, t.rounds)
      && FlagsOnlySet(s.eliminated, t.eliminated)
      && CursorsOnlyAdvance(s.cursors, t.cursors)
      && TotalsNonIncreasing(t.rounds, from)
      && (r.Ok? ==> |t.rounds| > |s.rounds| && Terminal(names, rankings, r.value, t))
      && (r.Err? ==> r.error == IndexError && [] in rankings)
    decreases Unread(rankings, s.cursors)
  {
    var step := Iteration(names, rankings, s);
    IterationFacts(names, rankings, s);
    StepKeepsTotals(names, rankings, s, step, from);
    if step.Continue? {
      var u := step.state;
      RunFacts(names, rankings, u, from);
      var t := Run(names, rankings, u).1;
      assert t.rounds[..|s.rounds|] == t.rounds[..|u.rounds|][..|s.rounds|];
    }
  }

  /** `run_election` returns a registered name or "No winner", unless an empty ballot reaches a tie. */
  lemma RunResult(names: seq<string>, rankings: seq<seq<nat>>, s: State)
    requires WellFormed(names, rankings, s)
    ensures var r := Run(names, rankings, s).0;
      (r.Ok? ==> r.value == NoWinner || r.value in names) &&
      (r.Err? ==> r.error == IndexError && [] in rankings)
  {
    RunFacts(names, rankings, s, |s.rounds|);
    var (r, t) := Run(names, rankings, s);
    if r.Ok? && r.value != NoWinner {
      var last := Last(t.rounds);
      if last.isTie && last.tieBroken {
        var w := TieBreakWinner(SecondChoiceTally(rankings, Keys(last.voteCounts)));
        if w.Some? && w.value < |names| && r.value == names[w.value] {
          assert r.value in names;
        }
      }
      if !last.isTie && last.eliminatedCandidate.Some? && |Remaining(t.eliminated)| == 1 {
        assert Remaining(t.eliminated)[0] in Remaining(t.eliminated);
      }
    }
  }
}
