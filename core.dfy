/**
 * The earlier variant of the engine, core.py. Its ballots, vote count,
 * elimination, tie test and registry are the same as in the later variant; its
 * loop differs only on a tie: the round is appended first, marked as a tie, and
 * the election then ends without a winner when no ballot has unread
 * preferences, and goes round again otherwise. There is no second-choice
 * tie-break, so nothing is ever raised once the ballots are in.
 */
module Core {
  import opened Wrappers
  import opened Tallies
  import opened Ballots
  import opened Registry
  import opened Tabulation
  import opened RankedChoiceVoting

  /**
   * What a pass of core.py does once the votes are counted, from the state
   * `counted` after counting. The round is appended before the tie test, marked
   * with its outcome; a tie then ends without a winner when no ballot has unread
   * preferences, and goes round again otherwise.
   */
  function DecideCore(names: seq<string>, rankings: seq<seq<nat>>, counted: State, counts: Tally): (step: Step)
    requires |counted.eliminated| == |names| && |counted.cursors| == |rankings| && KeysBelow(counts, |names|)
    ensures step.state.cursors == counted.cursors && |step.state.eliminated| == |names|
    ensures step.Stop? ==> step.result.Ok?
    ensures step.Continue? ==> counts != []
  {
    if counts == [] then
      Stop(Ok(NoWinner), counted.(rounds := counted.rounds + [Round([], None, true, false)]))
    else
      var appended := counted.(rounds := counted.rounds + [Round(counts, None, IsTie(counts), false)]);
      if IsTie(counts) then
        if !AnyMoreChoices(rankings, counted.cursors) then Stop(Ok(NoWinner), appended) else Continue(appended)
      else MajorityOrElimination(names, appended, counts)
  }

  /** One pass of the `while True` loop of core.py. */
  function IterationCore(names: seq<string>, rankings: seq<seq<nat>>, s: State): (step: Step)
    requires WellFormed(names, rankings, s)
    ensures WellFormed(names, rankings, step.state)
    ensures step.Stop? ==> step.result.Ok?
    ensures step.Continue? ==> Unread(rankings, step.state.cursors) < Unread(rankings, s.cursors)
  {
    CountFacts(names, rankings, s);
    var counts := RoundCount(rankings, s);
    assert counts != [] ==> Total(counts) >= 1 by {
      if counts != [] {
        EntryAtMostTotal(counts, 0);
      }
    }
    DecideCore(names, rankings, AfterCount(rankings, s), counts)
  }

  /** `run_election` of core.py: passes until one returns; it always returns a name or "No winner". */
  function RunCore(names: seq<string>, rankings: seq<seq<nat>>, s: State): (string, State)
    requires WellFormed(names, rankings, s)
    decreases Unread(rankings, s.cursors)
  {
    match IterationCore(names, rankings, s)
    case Stop(r, t) => (r.value, t)
    case Continue(t) => RunCore(names, rankings, t)
  }

  /**
   * Both variants take the same step unless a round is a tie that the later
   * variant resolves differently: by raising on an empty ballot, or by a unique
   * second-choice leader.
   */
  lemma VariantsAgree(names: seq<string>, rankings: seq<seq<nat>>, s: State)
    requires WellFormed(names, rankings, s)
    ensures var counts := RoundCount(rankings, s);
      IterationCore(names, rankings, s) == Iteration(names, rankings, s) <==>
        !(counts != [] && IsTie(counts) &&
          ([] in rankings || TieBreakWinner(SecondChoiceTally(rankings, Keys(counts))).Some?))
  {
    CountFacts(names, rankings, s);
    var counts := RoundCount(rankings, s);
    var counted := AfterCount(rankings, s);
    if counts == [] {
      assert IterationCore(names, rankings, s) == Iteration(names, rankings, s);
    } else if !IsTie(counts) {
      var appended := counted.(rounds := counted.rounds + [Round(counts, None, false, false)]);
      assert IterationCore(names, rankings, s) == MajorityOrElimination(names, appended, counts);
      assert Iteration(names, rankings, s) == MajorityOrElimination(names, appended, counts);
    } else {
      TieVariants(names, rankings, s);
    }
  }

  /** The tie case of `VariantsAgree`. */
  lemma TieVariants(names: seq<string>, rankings: seq<seq<nat>>, s: State)
    requires WellFormed(names, rankings, s)
    requires RoundCount(rankings, s) != [] && IsTie(RoundCount(rankings, s))
    ensures var counts := RoundCount(rankings, s);
      IterationCore(names, rankings, s) == Iteration(names, rankings, s) <==>
        !([] in rankings || TieBreakWinner(SecondChoiceTally(rankings, Keys(counts))).Some?)
  {
    CountFacts(names, rankings, s);
    var counts := RoundCount(rankings, s);
    var counted := AfterCount(rankings, s);
    var core := IterationCore(names, rankings, s);
    var later := Iteration(names, rankings, s);
    assert later == TieBreak(names, rankings, counted, counts);
    TieBreakFacts(names, rankings, counted, counts);
    assert core.state.rounds == s.rounds + [Round(counts, None, true, false)];
    assert core.Stop? ==> core.result.Ok?;
    if [] in rankings {
      assert later.Stop? && later.result.Err?;
    } else if TieBreakWinner(SecondChoiceTally(rankings, Keys(counts))).Some? {
      assert Last(later.state.rounds).tieBroken && !Last(core.state.rounds).tieBroken;
    } else {
      assert core == later;
    }
  }

  /**
   * A tie pass of core.py: the counted round is appended marked as an unbroken
   * tie with nobody eliminated, no flag changes, and the election ends without
   * a winner exactly when no ballot has an unread preference.
   */
  lemma CoreTieFacts(names: seq<string>, rankings: seq<seq<nat>>, s: State)
    requires WellFormed(names, rankings, s)
    requires RoundCount(rankings, s) != [] && IsTie(RoundCount(rankings, s))
    ensures IterationCore(names, rankings, s).state ==
      AfterCount(rankings, s).(rounds := s.rounds + [Round(RoundCount(rankings, s), None, true, false)])
    ensures IterationCore(names, rankings, s).Stop? <==> !AnyMoreChoices(rankings, AfterCount(rankings, s).cursors)
    ensures IterationCore(names, rankings, s).Stop? ==> IterationCore(names, rankings, s).result == Ok(NoWinner)
  {
    CountFacts(names, rankings, s);
  }

  /** Every pass of core.py keeps `StepKeeps`, ends in a `Terminal` state, and never breaks a tie. */
  lemma IterationCoreFacts(names: seq<string>, rankings: seq<seq<nat>>, s: State)
    requires WellFormed(names, rankings, s)
    ensures PassOutcome(names, rankings, s, IterationCore(names, rankings, s))
    ensures var t := IterationCore(names, rankings, s).state;
      |t.rounds| == |s.rounds| + 1 && t.rounds[..|s.rounds|] == s.rounds && !Last(t.rounds).tieBroken
  {
    CountFacts(names, rankings, s);
    var counts := RoundCount(rankings, s);
    if counts == [] {
      EmptyPassFacts(names, rankings, s);
      VariantsAgree(names, rankings, s);
    } else if IsTie(counts) {
      var appended := AfterCount(rankings, s).(rounds := s.rounds + [Round(counts, None, true, false)]);
      assert IterationCore(names, rankings, s).state == appended;
      assert appended.rounds[..|s.rounds|] == s.rounds;
    } else {
      NonTiePassFacts(names, rankings, s);
      VariantsAgree(names, rankings, s);
      var t := IterationCore(names, rankings, s).state;
      var counted := AfterCount(rankings, s).(rounds := s.rounds + [Round(counts, None, false, false)]);
      if Majority(counts).None? {
        EliminationFacts(names, counted, counts);
      } else {
        MajorityWins(names, counted, counts);
      }
    }
  }

  /** No round of core.py's ledger from `from` on is marked as a broken tie. */
  predicate NoTieBroken(rounds: seq<Round>, from: nat)
  {
    forall i :: from <= i < |rounds| ==> !rounds[i].tieBroken
  }

  lemma NoTieBrokenExtends(before: seq<Round>, after: seq<Round>, from: nat)
    requires NoTieBroken(before, from)
    requires |after| == |before| + 1 && after[..|before|] == before && !after[|before|].tieBroken
    ensures NoTieBroken(after, from)
  {
    forall i | from <= i < |after| ensures !after[i].tieBroken {
      if i < |before| {
        assert after[..|before|][i] == after[i];
      }
    }
  }

  /**
   * Over a whole run of core.py: the ledger only grows, by at least one round;
   * flags are only set and cursors only advance; vote totals never increase from
   * round to round; no tie is ever broken; and the result is read off the final
   * state as `Terminal` says.
   */
  lemma {:induction false} RunCoreFacts(names: seq<string>, rankings: seq<seq<nat>>, s: State, from: nat)
    requires WellFormed(names, rankings, s)
    requires from <= |s.rounds| && TotalsNonIncreasing(s.rounds, from) && LiveWithinLast(rankings, s, from)
    requires NoTieBroken(s.rounds, from)
    ensures var (r, t) := RunCore(names, rankings, s);
      && WellFormed(names, rankings, t)
      && LedgerExtends(s.rounds, t.rounds) && |t.rounds| > |s.rounds|
      && FlagsOnlySet(s.eliminated, t.eliminated)
      && CursorsOnlyAdvance(s.cursors, t.cursors)
      && TotalsNonIncreasing(t.rounds, from)
      && NoTieBroken(t.rounds, from)
      && Terminal(names, rankings, r, t)
    decreases Unread(rankings, s.cursors)
  {
    var step := IterationCore(names, rankings, s);
    IterationCoreFacts(names, rankings, s);
    StepKeepsTotals(names, rankings, s, step, from);
    var u := step.state;
    NoTieBrokenExtends(s.rounds, u.rounds, from);
    if step.Continue? {
      RunCoreFacts(names, rankings, u, from);
      var t := RunCore(names, rankings, u).1;
      assert t.rounds[..|s.rounds|] == t.rounds[..|u.rounds|][..|s.rounds|];
    }
  }

  /**
   * `run_election` of core.py returns a registered name or "No winner"; a
   * registered name comes from a strict majority or from being the last
   * candidate standing, never from a tie.
   */
  lemma RunCoreResult(names: seq<string>, rankings: seq<seq<nat>>, s: State)
    requires WellFormed(names, rankings, s)
    ensures var (r, t) := RunCore(names, rankings, s);
      && (r == NoWinner || r in names)
      && (r != NoWinner ==> t.rounds != [] && !Last(t.rounds).isTie)
  {
    RunCoreFacts(names, rankings, s, |s.rounds|);
    var (r, t) := RunCore(names, rankings, s);
    var last := Last(t.rounds);
    assert !last.tieBroken;
    if !last.isTie && last.eliminatedCandidate.Some? && |Remaining(t.eliminated)| == 1 {
      assert Remaining(t.eliminated)[0] in Remaining(t.eliminated);
    }
  }

  /**
   * `run_election` of core.py on an election object: each pass counts the votes
   * and then decides. Result and final state are exactly those of `RunCore`
   * from the state the call started in.
   */
  method RunElection(e: Election) returns (result: string)
    requires e.Valid()
    modifies e`rounds, e.eliminated, e.ballots
    ensures e.Valid() && e.ballots == old(e.ballots) && WellFormed(e.names, e.Rankings(), old(e.Snapshot()))
    ensures (result, e.Snapshot()) == RunCore(e.names, e.Rankings(), old(e.Snapshot()))
  {
    e.ValidIsWellFormed();
    ghost var rankings := e.Rankings();
    ghost var s0 := e.Snapshot();
    while true
      invariant e.Valid() && e.ballots == old(e.ballots) && e.Rankings() == rankings
      invariant WellFormed(e.names, rankings, e.Snapshot())
      invariant RunCore(e.names, rankings, e.Snapshot()) == RunCore(e.names, rankings, s0)
      decreases Unread(rankings, e.Cursors())
    {
      ghost var s := e.Snapshot();
      var voteCounts := e.CountVotes();
      assert KeysBelow(voteCounts, |e.names|) by {
        CountFacts(e.names, rankings, s);
      }
      var outcome := DecideRound(e, voteCounts);
      e.ValidIsWellFormed();
      assert IterationCore(e.names, rankings, s) == DecideCore(e.names, rankings, AfterCount(rankings, s), voteCounts);
      if outcome.Some? {
        return outcome.value;
      }
    }
  }

  /**
   * The rest of a pass of core.py once the votes are counted. `None` means the
   * loop goes round again.
   */
  method DecideRound(e: Election, counts: Tally) returns (outcome: Option<string>)
    requires e.Valid() && KeysBelow(counts, |e.names|)
    modifies e`rounds, e.eliminated
    ensures e.Valid()
    ensures DecideCore(e.names, e.Rankings(), old(e.Snapshot()), counts) ==
      match outcome
      case Some(r) => Stop(Ok(r), e.Snapshot())
      case None => Continue(e.Snapshot())
  {
    if counts == [] {
      e.rounds := e.rounds + [Round([], None, true, false)];
      return Some(NoWinner);
    }

    var totalVotes := Total(counts);
    var isTieRound := IsTie(counts);
    e.rounds := e.rounds + [Round(counts, None, isTieRound, false)];

    if isTieRound {
      var more := e.AnyBallotsHaveMoreChoices();
      if !more {
        return Some(NoWinner);
      }
      return None;
    }

    var majority := e.FindMajority(counts, totalVotes);
    if majority.Some? {
      assert exists i :: 0 <= i < |counts| && counts[i].candidate == majority.value;
      return Some(e.names[majority.value]);
    }
    var eliminated := e.EliminateLowest(counts);
    if eliminated.Some? {
      return Some(eliminated.value.value);
    }
    return None;
  }
}
