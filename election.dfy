/**
 * The `Election` object of src/ranked_choice_voting.py, which updates its state
 * in place: the registry's elimination flags, the ballots' cursors and the
 * ledger of rounds. Each method is proved against the functions of `Tabulation`:
 * `RunElection` leaves the object exactly in the state, and returns exactly the
 * result, that `Run` computes from the state it started in.
 */
module RankedChoiceVoting {
  import opened Wrappers
  import opened Tallies
  import opened Ballots
  import opened Registry
  import opened Tabulation

  class Election {
    /** The registry's keys; a candidate is its index here. */
    const names: seq<string>
    /** `candidate.eliminated` for every registered candidate, shared by all ballots. */
    const eliminated: array<bool>
    var ballots: seq<Ballot>
    var rounds: seq<Round>

    ghost predicate Valid()
      reads this`ballots, eliminated, ballots
    {
      && eliminated.Length == |names|
      && (forall i, j :: 0 <= i < j < |ballots| ==> ballots[i] != ballots[j])
      && (forall i :: 0 <= i < |ballots| ==> ballots[i].Valid(|names|))
    }

    /** Every ballot's ranking, in ballot order. */
    ghost function Rankings(): (r: seq<seq<nat>>)
      reads this`ballots
      ensures |r| == |ballots| && forall i :: 0 <= i < |ballots| ==> r[i] == ballots[i].rankings
    {
      var bs := ballots;
      seq(|bs|, i requires 0 <= i < |bs| => bs[i].rankings)
    }

    /** Every ballot's `current_rank`, in ballot order. */
    ghost function Cursors(): (c: seq<nat>)
      reads this`ballots, ballots
      ensures |c| == |ballots| && forall i :: 0 <= i < |ballots| ==> c[i] == ballots[i].currentRank
    {
      var bs := ballots;
      seq(|bs|, i reads bs requires 0 <= i < |bs| => bs[i].currentRank)
    }

    /** The part of the object that the tabulation loop changes. */
    ghost function Snapshot(): State
      reads this, eliminated, ballots
    {
      State(eliminated[..], Cursors(), rounds)
    }

    lemma ValidIsWellFormed()
      requires Valid()
      ensures WellFormed(names, Rankings(), Snapshot())
    {
    }

    /** Registers the candidates under their names; nobody is eliminated and there are no ballots yet. */
    constructor (candidates: seq<string>)
      ensures Valid()
      ensures names == Dedup(candidates) && forall c :: 0 <= c < eliminated.Length ==> !eliminated[c]
      ensures ballots == [] && rounds == []
      ensures fresh(eliminated)
    {
      names := Dedup(candidates);
      eliminated := new bool[|Dedup(candidates)|](_ => false);
      ballots := [];
      rounds := [];
    }

    /**
     * Looks every name of the ranking up in the registry; an unknown name raises
     * `KeyError` and adds nothing, otherwise a new ballot with its cursor at the
     * start is appended.
     */
    method AddBallot(ranking: seq<string>) returns (r: Result<(), Error>)
      requires Valid()
      modifies this
      ensures Valid() && rounds == old(rounds)
      ensures r.Err? <==> Resolve(names, ranking).Err?
      ensures r.Err? ==> r.error == Resolve(names, ranking).error && ballots == old(ballots)
      ensures r.Ok? ==>
        && |ballots| == |old(ballots)| + 1 && ballots[..|old(ballots)|] == old(ballots) && fresh(ballots[|old(ballots)|])
        && Rankings() == old(Rankings()) + [Resolve(names, ranking).value]
        && Cursors() == old(Cursors()) + [0]
    {
      var ids := Resolve(names, ranking);
      if ids.Err? {
        return Err(ids.error);
      }
      var ballot := new Ballot(ids.value);
      ballots := ballots + [ballot];
      r := Ok(());
    }

    /**
     * Asks every ballot, in order, for its next choice and counts the choices:
     * the count and the cursors afterwards are those of one pass of the loop.
     */
    method CountVotes() returns (counts: Tally)
      requires Valid()
      modifies ballots
      ensures Valid() && WellFormed(names, Rankings(), old(Snapshot()))
      ensures counts == RoundCount(Rankings(), old(Snapshot()))
      ensures Cursors() == AfterCount(Rankings(), old(Snapshot())).cursors
    {
      ValidIsWellFormed();
      ghost var rankings := Rankings();
      ghost var s := Snapshot();
      ghost var votes := Votes(rankings, s.cursors, s.eliminated);
      ghost var after := AfterCount(rankings, s).cursors;
      counts := [];
      var i := 0;
      while i < |ballots|
        invariant 0 <= i <= |ballots| && Rankings() == rankings
        invariant Valid() && eliminated[..] == s.eliminated
        invariant counts == TallyOf(votes[..i])
        invariant forall j :: 0 <= j < |ballots| ==> ballots[j].currentRank == if j < i then after[j] else s.cursors[j]
      {
        var choice := ballots[i].GetNextChoice(eliminated);
        assert choice == votes[i];
        TallyOfPrefix(votes, i);
        if choice.Some? {
          counts := AddVote(counts, choice.value);
        }
        i := i + 1;
      }
      assert votes[..i] == votes;
      assert Cursors() == after;
    }

    /**
     * For each ballot whose first choice is tied, the second choice if it is
     * tied too. An empty ballot raises `IndexError` on `rankings[0]`.
     */
    method CountSecondChoiceVotes(tied: seq<nat>) returns (r: Result<Tally, Error>)
      requires Valid()
      ensures r.Err? <==> [] in Rankings()
      ensures r.Err? ==> r.error == IndexError
      ensures r.Ok? ==> r.value == SecondChoiceTally(Rankings(), tied)
    {
      ghost var rankings := Rankings();
      var counts := [];
      var i := 0;
      while i < |ballots|
        invariant 0 <= i <= |ballots|
        invariant [] !in rankings[..i]
        invariant counts == TallyOf(SecondChoices(rankings[..i], tied))
      {
        var ballot := ballots[i];
        if |ballot.rankings| == 0 {
          assert rankings[i] == [];
          return Err(IndexError);
        }
        assert rankings[..i + 1] == rankings[..i] + [ballot.rankings];
        assert SecondChoices(rankings[..i + 1], tied)[..i] == SecondChoices(rankings[..i], tied);
        if ballot.rankings[0] in tied {
          var second := ballot.GetSecondChoice();
          if second.Some? && second.value in tied {
            counts := AddVote(counts, second.value);
          }
        }
        i := i + 1;
      }
      assert rankings[..i] == rankings;
      return Ok(counts);
    }

    /** Sets the flag of every candidate in `losers`, and of no other. */
    method EliminateCandidates(losers: seq<nat>)
      requires Valid() && forall j :: 0 <= j < |losers| ==> losers[j] < eliminated.Length
      modifies eliminated
      ensures Valid()
      ensures eliminated[..] == EliminateAll(old(eliminated[..]), losers)
    {
      for k := 0 to |losers|
        invariant Valid()
        invariant eliminated[..] == EliminateAll(old(eliminated[..]), losers[..k])
      {
        assert losers[..k + 1] == losers[..k] + [losers[k]];
        eliminated[losers[k]] := true;
      }
      assert losers[..|losers|] == losers;
    }

    /** Whether some ballot has a preference it has not read yet. */
    method AnyBallotsHaveMoreChoices() returns (more: bool)
      requires Valid()
      ensures more <==> AnyMoreChoices(Rankings(), Cursors())
    {
      var i := 0;
      while i < |ballots|
        invariant 0 <= i <= |ballots|
        invariant forall j :: 0 <= j < i ==> Cursors()[j] >= |Rankings()[j]|
      {
        if ballots[i].HasMoreChoices() {
          assert Cursors()[i] < |Rankings()[i]|;
          return true;
        }
        i := i + 1;
      }
      return false;
    }

    /** The first candidate, in count order, whose votes exceed half of `total`. */
    method FindMajority(counts: Tally, total: nat) returns (winner: Option<nat>)
      ensures winner == FirstOver(counts, total)
    {
      var i := 0;
      while i < |counts|
        invariant 0 <= i <= |counts|
        invariant FirstOver(counts, total) == FirstOver(counts[i..], total)
      {
        assert counts[i..][1..] == counts[i + 1..];
        if 2 * counts[i].votes > total {
          return Some(counts[i].candidate);
        }
        i := i + 1;
      }
      return None;
    }

    /**
     * The tabulation loop: each pass counts the votes and then decides. Result
     * and final state are exactly those of `Run` from the state the call
     * started in.
     */
    method RunElection() returns (result: Result<string, Error>)
      requires Valid()
      modifies this`rounds, eliminated, ballots
      ensures Valid() && ballots == old(ballots) && WellFormed(names, Rankings(), old(Snapshot()))
      ensures (result, Snapshot()) == Run(names, Rankings(), old(Snapshot()))
    {
      ValidIsWellFormed();
      ghost var rankings := Rankings();
      ghost var s0 := Snapshot();
      while true
        invariant Valid() && ballots == old(ballots) && Rankings() == rankings
        invariant WellFormed(names, rankings, Snapshot())
        invariant Run(names, rankings, Snapshot()) == Run(names, rankings, s0)
        decreases Unread(rankings, Cursors())
      {
        ghost var s := Snapshot();
        var voteCounts := CountVotes();
        assert KeysBelow(voteCounts, |names|) by {
          CountFacts(names, rankings, s);
        }
        var outcome := DecideRound(voteCounts);
        ValidIsWellFormed();
        assert Iteration(names, rankings, s) == Decide(names, rankings, AfterCount(rankings, s), voteCounts);
        if outcome.Some? {
          return outcome.value;
        }
      }
    }

    /**
     * The rest of a pass once the votes are counted: end on an empty count,
     * settle a tie, or look for a majority and otherwise eliminate. `None`
     * means the loop goes round again.
     */
    method DecideRound(counts: Tally) returns (outcome: Option<Result<string, Error>>)
      requires Valid() && KeysBelow(counts, |names|)
      modifies this`rounds, eliminated
      ensures Valid()
      ensures Decide(names, Rankings(), old(Snapshot()), counts) ==
        match outcome
        case Some(r) => Stop(r, Snapshot())
        case None => Continue(Snapshot())
    {
      if counts == [] {
        rounds := rounds + [Round([], None, true, false)];
        return Some(Ok(NoWinner));
      }

      var totalVotes := Total(counts);
      var isTieRound := IsTie(counts);
      if isTieRound {
        outcome := SettleTie(counts);
        return;
      }

      rounds := rounds + [Round(counts, None, false, false)];
      var majority := FindMajority(counts, totalVotes);
      if majority.Some? {
        assert exists i :: 0 <= i < |counts| && counts[i].candidate == majority.value;
        return Some(Ok(names[majority.value]));
      }
      outcome := EliminateLowest(counts);
    }

    /**
     * Eliminates every candidate with the fewest votes, writes their names on the
     * last round, and returns the one candidate left standing, if only one is.
     */
    method EliminateLowest(counts: Tally) returns (outcome: Option<Result<string, Error>>)
      requires Valid() && rounds != [] && counts != [] && KeysBelow(counts, |names|)
      modifies this`rounds, eliminated
      ensures Valid()
      ensures Elimination(names, old(Snapshot()), counts) ==
        match outcome
        case Some(r) => Stop(r, Snapshot())
        case None => Continue(Snapshot())
    {
      var minVotes := MinCount(counts);
      var candidatesToEliminate := KeysWithCount(counts, minVotes);
      assert forall j :: 0 <= j < |candidatesToEliminate| ==> candidatesToEliminate[j] < |names| by {
        forall j | 0 <= j < |candidatesToEliminate| ensures candidatesToEliminate[j] < |names| {
          var i :| 0 <= i < |counts| && counts[i].candidate == candidatesToEliminate[j];
        }
      }
      EliminateCandidates(candidatesToEliminate);
      var last := rounds[|rounds| - 1];
      rounds := rounds[..|rounds| - 1] + [last.(eliminatedCandidate := Some(Join(NamesOf(names, candidatesToEliminate), ", ")))];

      var remainingCandidates := Remaining(eliminated[..]);
      if |remainingCandidates| == 1 {
        assert remainingCandidates[0] in remainingCandidates;
        return Some(Ok(names[remainingCandidates[0]]));
      } else if |remainingCandidates| == 0 {
        return Some(Ok(NoWinner));
      }
      return None;
    }

    /**
     * The tie branch: a unique second-choice leader wins and the round is
     * marked as broken; otherwise the round is a plain tie, and the election
     * ends without a winner when no ballot has unread preferences.
     */
    method SettleTie(counts: Tally) returns (outcome: Option<Result<string, Error>>)
      requires Valid() && KeysBelow(counts, |names|)
      modifies this`rounds
      ensures Valid() && WellFormed(names, Rankings(), old(Snapshot()))
      ensures TieBreak(names, Rankings(), old(Snapshot()), counts) ==
        match outcome
        case Some(r) => Stop(r, Snapshot())
        case None => Continue(Snapshot())
    {
      ValidIsWellFormed();
      var tied := Keys(counts);
      var secondChoiceCounts := CountSecondChoiceVotes(tied);
      if secondChoiceCounts.Err? {
        return Some(Err(secondChoiceCounts.error));
      }
      var second := secondChoiceCounts.value;
      ghost var winner := TieBreakWinner(second);
      if second != [] {
        var maxSecondChoices := MaxCount(second);
        var winners := KeysWithCount(second, maxSecondChoices);
        if |winners| == 1 {
          assert winner == Some(winners[0]);
          rounds := rounds + [Round(counts, None, true, true)];
          return Some(Ok(names[winners[0]]));
        }
      }
      assert winner.None?;
      var more := AnyBallotsHaveMoreChoices();
      rounds := rounds + [Round(counts, None, true, false)];
      if !more {
        return Some(Ok(NoWinner));
      }
      return None;
    }
  }
}
