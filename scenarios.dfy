/**
 * The test elections of src/test_ranked_choice_voting.py and of core.py's own
 * `run_all_tests`, run through the models: each lemma states the result the
 * test expects and the ledger the run leaves behind.
 *
 * The elections are passed in as parameters pinned by `requires`, and each pass
 * is taken by a lemma of its own: the count, then the decision.
 */
module Scenarios {
  import opened Wrappers
  import opened Tallies
  import opened Ballots
  import opened Registry
  import opened Tabulation
  import opened Core

  // ---- The tests' ballots, by name ------------------------------------------

  /** Each ballot, given by names, resolves to the ranking of the same index. */
  predicate ResolvesTo(names: seq<string>, ballots: seq<seq<string>>, rankings: seq<seq<nat>>)
  {
    |ballots| == |rankings| && forall b :: 0 <= b < |ballots| ==> Resolve(names, ballots[b]) == Ok(rankings[b])
  }

  /** Ballots whose names sit at the given positions of a registry without repeats resolve to them. */
  lemma BallotsResolve(names: seq<string>, ballots: seq<seq<string>>, rankings: seq<seq<nat>>)
    requires Distinct(names) && |ballots| == |rankings|
    requires forall b :: 0 <= b < |ballots| ==> |rankings[b]| == |ballots[b]|
    requires forall b, i :: 0 <= b < |ballots| && 0 <= i < |rankings[b]| ==>
      rankings[b][i] < |names| && i < |ballots[b]| && names[rankings[b][i]] == ballots[b][i]
    ensures ResolvesTo(names, ballots, rankings)
  {
    forall b | 0 <= b < |ballots| ensures Resolve(names, ballots[b]) == Ok(rankings[b]) {
      ResolveDistinct(names, ballots[b], rankings[b]);
    }
  }

  /** "Simple Majority Winner" of the later variant's tests: the registry and the ballots the lemmas below use. */
  lemma SimpleMajorityByName(candidates: seq<string>, ballots: seq<seq<string>>)
    requires candidates == ["Dilbert", "Alice", "Wally"]
    requires ballots == [["Dilbert", "Alice", "Wally"], ["Dilbert", "Wally", "Alice"],
                         ["Alice", "Dilbert", "Wally"], ["Dilbert", "Alice", "Wally"]]
    ensures Dedup(candidates) == candidates
    ensures ResolvesTo(candidates, ballots, [[0, 1, 2], [0, 2, 1], [1, 0, 2], [0, 1, 2]])
  {
    assert Distinct(candidates);
    BallotsResolve(candidates, ballots, [[0, 1, 2], [0, 2, 1], [1, 0, 2], [0, 1, 2]]);
  }

  /** core.py's "Simple Majority Winner". */
  lemma CoreSimpleMajorityByName(candidates: seq<string>, ballots: seq<seq<string>>)
    requires candidates == ["Alice", "Bob", "Charlie"]
    requires ballots == [["Alice", "Bob", "Charlie"], ["Alice", "Charlie", "Bob"],
                         ["Bob", "Alice", "Charlie"], ["Alice", "Bob", "Charlie"]]
    ensures Dedup(candidates) == candidates
    ensures ResolvesTo(candidates, ballots, [[0, 1, 2], [0, 2, 1], [1, 0, 2], [0, 1, 2]])
  {
    assert Distinct(candidates);
    BallotsResolve(candidates, ballots, [[0, 1, 2], [0, 2, 1], [1, 0, 2], [0, 1, 2]]);
  }

  /** "Tie for biggest losers" of the later variant's tests. */
  lemma BiggestLosersByName(candidates: seq<string>, ballots: seq<seq<string>>)
    requires candidates == ["Dilbert", "Alice", "Wally"]
    requires ballots == [["Dilbert", "Alice", "Wally"], ["Alice", "Dilbert", "Wally"],
                         ["Wally", "Dilbert", "Alice"], ["Wally", "Alice", "Dilbert"]]
    ensures Dedup(candidates) == candidates
    ensures ResolvesTo(candidates, ballots, [[0, 1, 2], [1, 0, 2], [2, 0, 1], [2, 1, 0]])
  {
    assert Distinct(candidates);
    BallotsResolve(candidates, ballots, [[0, 1, 2], [1, 0, 2], [2, 0, 1], [2, 1, 0]]);
  }

  /** core.py's "Runoff Required". */
  lemma CoreRunoffByName(candidates: seq<string>, ballots: seq<seq<string>>)
    requires candidates == ["Alice", "Bob", "Charlie"]
    requires ballots == [["Alice", "Bob", "Charlie"], ["Bob", "Alice", "Charlie"],
                         ["Charlie", "Alice", "Bob"], ["Charlie", "Bob", "Alice"]]
    ensures Dedup(candidates) == candidates
    ensures ResolvesTo(candidates, ballots, [[0, 1, 2], [1, 0, 2], [2, 0, 1], [2, 1, 0]])
  {
    assert Distinct(candidates);
    BallotsResolve(candidates, ballots, [[0, 1, 2], [1, 0, 2], [2, 0, 1], [2, 1, 0]]);
  }

  /** "Tie all the way" of the later variant's tests: the rotated ballots are `Cyclic`. */
  lemma TieAllTheWayByName(candidates: seq<string>, ballots: seq<seq<string>>)
    requires candidates == ["Dilbert", "Alice", "Wally", "Dave"]
    requires ballots == [["Dilbert", "Alice", "Wally", "Dave"], ["Alice", "Wally", "Dave", "Dilbert"],
                         ["Wally", "Dave", "Dilbert", "Alice"], ["Dave", "Dilbert", "Alice", "Wally"]]
    ensures Dedup(candidates) == candidates
    ensures ResolvesTo(candidates, ballots, Cyclic)
  {
    assert Distinct(candidates);
    BallotsResolve(candidates, ballots, Cyclic);
  }

  /** core.py's "Tie Result". */
  lemma CoreTieResultByName(candidates: seq<string>, ballots: seq<seq<string>>)
    requires candidates == ["Alice", "Bob", "Charlie", "David"]
    requires ballots == [["Alice", "Bob", "Charlie", "David"], ["Bob", "Charlie", "David", "Alice"],
                         ["Charlie", "David", "Alice", "Bob"], ["David", "Alice", "Bob", "Charlie"]]
    ensures Dedup(candidates) == candidates
    ensures ResolvesTo(candidates, ballots, Cyclic)
  {
    assert Distinct(candidates);
    BallotsResolve(candidates, ballots, Cyclic);
  }

  // ---- One pass at a time ---------------------------------------------------

  /** With nobody eliminated, a ballot votes for the entry under its cursor and moves one step on. */
  lemma CountWithNoneEliminated(rankings: seq<seq<nat>>, cursors: seq<nat>, eliminated: seq<bool>)
    requires WellFormedBallots(rankings, cursors, |eliminated|)
    requires forall c :: 0 <= c < |eliminated| ==> !eliminated[c]
    ensures forall i :: 0 <= i < |rankings| && cursors[i] < |rankings[i]| ==>
      Votes(rankings, cursors, eliminated)[i] == Some(rankings[i][cursors[i]]) &&
      AdvanceAll(rankings, cursors, eliminated)[i] == cursors[i] + 1
  {
    forall i | 0 <= i < |rankings| && cursors[i] < |rankings[i]|
      ensures Votes(rankings, cursors, eliminated)[i] == Some(rankings[i][cursors[i]])
      ensures AdvanceAll(rankings, cursors, eliminated)[i] == cursors[i] + 1
    {
      assert NextIndex(rankings[i], cursors[i], eliminated) == cursors[i];
    }
  }

  lemma TallyOf4(votes: seq<Option<nat>>)
    requires |votes| == 4
    ensures TallyOf(votes) == Record(Record(Record(Record([], votes[0]), votes[1]), votes[2]), votes[3])
  {
    TallyOfPrefix(votes, 0);
    TallyOfPrefix(votes, 1);
    TallyOfPrefix(votes, 2);
    TallyOfPrefix(votes, 3);
    assert votes[..4] == votes;
  }

  /** A pass of the later variant whose decision stops ends the run. */
  lemma PassStops(names: seq<string>, rankings: seq<seq<nat>>, s: State, counts: Tally, r: Result<string, Error>, t: State)
    requires WellFormed(names, rankings, s) && RoundCount(rankings, s) == counts
    requires KeysBelow(counts, |names|)
    requires Decide(names, rankings, AfterCount(rankings, s), counts) == Stop(r, t)
    ensures Run(names, rankings, s) == (r, t)
  {
    assert Iteration(names, rankings, s) == Stop(r, t);
  }

  /** A pass of the later variant whose decision goes round again continues from its state. */
  lemma PassContinues(names: seq<string>, rankings: seq<seq<nat>>, s: State, counts: Tally, t: State)
    requires WellFormed(names, rankings, s) && RoundCount(rankings, s) == counts
    requires KeysBelow(counts, |names|)
    requires Decide(names, rankings, AfterCount(rankings, s), counts) == Continue(t)
    ensures WellFormed(names, rankings, t) && Run(names, rankings, s) == Run(names, rankings, t)
  {
    assert Iteration(names, rankings, s) == Continue(t);
  }

  /** The same two facts for core.py's variant. */
  lemma CorePassStops(names: seq<string>, rankings: seq<seq<nat>>, s: State, counts: Tally, r: string, t: State)
    requires WellFormed(names, rankings, s) && RoundCount(rankings, s) == counts
    requires KeysBelow(counts, |names|)
    requires DecideCore(names, rankings, AfterCount(rankings, s), counts) == Stop(Ok(r), t)
    ensures RunCore(names, rankings, s) == (r, t)
  {
    assert IterationCore(names, rankings, s) == Stop(Ok(r), t);
  }

  lemma CorePassContinues(names: seq<string>, rankings: seq<seq<nat>>, s: State, counts: Tally, t: State)
    requires WellFormed(names, rankings, s) && RoundCount(rankings, s) == counts
    requires KeysBelow(counts, |names|)
    requires DecideCore(names, rankings, AfterCount(rankings, s), counts) == Continue(t)
    ensures WellFormed(names, rankings, t) && RunCore(names, rankings, s) == RunCore(names, rankings, t)
  {
    assert IterationCore(names, rankings, s) == Continue(t);
  }

  /** Without a majority, the pass eliminates the candidates with the fewest votes. */
  lemma NoMajorityEliminates(names: seq<string>, s: State, counts: Tally, losers: seq<nat>)
    requires |s.eliminated| == |names| && s.rounds != [] && counts != [] && KeysBelow(counts, |names|)
    requires Majority(counts) == None && KeysWithCount(counts, MinCount(counts)) == losers
    ensures forall j :: 0 <= j < |losers| ==> losers[j] < |names|
    ensures MajorityOrElimination(names, s, counts) == EliminateLosers(names, s, losers)
  {
    forall j | 0 <= j < |losers| ensures losers[j] < |names| {
      assert losers[j] in losers;
    }
  }

  /**
   * Losers whose elimination leaves a single candidate `w` elect `w`, and
   * their names go on the last round of the ledger.
   */
  lemma SingleSurvivor(names: seq<string>, s: State, losers: seq<nat>, flags: seq<bool>, w: nat)
    requires |s.eliminated| == |names| && s.rounds != []
    requires forall j :: 0 <= j < |losers| ==> losers[j] < |names|
    requires EliminateAll(s.eliminated, losers) == flags && Remaining(flags) == [w]
    ensures w < |names|
    ensures EliminateLosers(names, s, losers) ==
      Stop(Ok(names[w]), s.(eliminated := flags,
        rounds := s.rounds[..|s.rounds| - 1] + [Last(s.rounds).(eliminatedCandidate := Some(Join(NamesOf(names, losers), ", ")))]))
  {
    assert w in Remaining(flags);
  }

  /**
   * A tied count that the second choices do not break: the round is appended
   * as an unbroken tie, and the run ends without a winner exactly when no ballot
   * has unread preferences left.
   */
  lemma UnbrokenTie(names: seq<string>, rankings: seq<seq<nat>>, counted: State, counts: Tally)
    requires |counted.eliminated| == |names| && |counted.cursors| == |rankings| && KeysBelow(counts, |names|)
    requires IsTie(counts) && [] !in rankings
    requires TieBreakWinner(SecondChoiceTally(rankings, Keys(counts))) == None
    ensures var t := counted.(rounds := counted.rounds + [Round(counts, None, true, false)]);
      && Decide(names, rankings, counted, counts) == DecideCore(names, rankings, counted, counts)
      && Decide(names, rankings, counted, counts) ==
           if AnyMoreChoices(rankings, counted.cursors) then Continue(t) else Stop(Ok(NoWinner), t)
  {
    assert counts != [];
  }

  // ---- "Simple Majority Winner" -------------------------------------------

  /** Ballots 0>1>2, 0>2>1, 1>0>2, 0>1>2: three first choices for candidate 0, one for candidate 1. */
  lemma MajorityBallotsCount(rankings: seq<seq<nat>>, s: State)
    requires rankings == [[0, 1, 2], [0, 2, 1], [1, 0, 2], [0, 1, 2]]
    requires s == State([false, false, false], [0, 0, 0, 0], [])
    ensures WellFormedBallots(rankings, s.cursors, |s.eliminated|)
    ensures RoundCount(rankings, s) == [Entry(0, 3), Entry(1, 1)]
    ensures AfterCount(rankings, s) == s.(cursors := [1, 1, 1, 1])
  {
    CountWithNoneEliminated(rankings, s.cursors, s.eliminated);
    var votes := Votes(rankings, s.cursors, s.eliminated);
    assert votes == [Some(0), Some(0), Some(1), Some(0)];
    TallyOf4(votes);
  }

  /** Three votes of four are a majority for candidate 0, and the count is no tie. */
  lemma MajorityCounts()
    ensures !IsTie([Entry(0, 3), Entry(1, 1)]) && Majority([Entry(0, 3), Entry(1, 1)]) == Some(0)
  {
    var counts := [Entry(0, 3), Entry(1, 1)];
    TieIff(counts);
    assert counts[1..] == [Entry(1, 1)];
    assert Total(counts) == 4;
  }

  /** src: Dilbert holds three of the four first choices and wins in the first round. */
  lemma SimpleMajorityWinner(names: seq<string>, rankings: seq<seq<nat>>, s: State)
    requires names == ["Dilbert", "Alice", "Wally"]
    requires rankings == [[0, 1, 2], [0, 2, 1], [1, 0, 2], [0, 1, 2]]
    requires s == State([false, false, false], [0, 0, 0, 0], [])
    ensures WellFormed(names, rankings, s)
    ensures var (r, t) := Run(names, rankings, s);
      r == Ok("Dilbert") && t.rounds == [Round([Entry(0, 3), Entry(1, 1)], None, false, false)]
  {
    var counts := [Entry(0, 3), Entry(1, 1)];
    MajorityBallotsCount(rankings, s);
    MajorityCounts();
    var t := s.(cursors := [1, 1, 1, 1], rounds := [Round(counts, None, false, false)]);
    assert Decide(names, rankings, AfterCount(rankings, s), counts) == Stop(Ok(names[0]), t);
    PassStops(names, rankings, s, counts, Ok("Dilbert"), t);
  }

  /** core.py "Simple Majority Winner": the same ballots elect Alice. */
  lemma CoreSimpleMajorityWinner(names: seq<string>, rankings: seq<seq<nat>>, s: State)
    requires names == ["Alice", "Bob", "Charlie"]
    requires rankings == [[0, 1, 2], [0, 2, 1], [1, 0, 2], [0, 1, 2]]
    requires s == State([false, false, false], [0, 0, 0, 0], [])
    ensures WellFormed(names, rankings, s)
    ensures var (r, t) := RunCore(names, rankings, s);
      r == "Alice" && t.rounds == [Round([Entry(0, 3), Entry(1, 1)], None, false, false)]
  {
    var counts := [Entry(0, 3), Entry(1, 1)];
    MajorityBallotsCount(rankings, s);
    MajorityCounts();
    var t := s.(cursors := [1, 1, 1, 1], rounds := [Round(counts, None, false, false)]);
    assert DecideCore(names, rankings, AfterCount(rankings, s), counts) == Stop(Ok(names[0]), t);
    CorePassStops(names, rankings, s, counts, "Alice", t);
  }

  // ---- "Tie for biggest losers" / "Runoff Required" ------------------------

  /** Ballots 0>1>2, 1>0>2, 2>0>1, 2>1>0: one first choice each for 0 and 1, two for 2. */
  lemma RunoffBallotsCount(rankings: seq<seq<nat>>, s: State)
    requires rankings == [[0, 1, 2], [1, 0, 2], [2, 0, 1], [2, 1, 0]]
    requires s == State([false, false, false], [0, 0, 0, 0], [])
    ensures WellFormedBallots(rankings, s.cursors, |s.eliminated|)
    ensures RoundCount(rankings, s) == [Entry(0, 1), Entry(1, 1), Entry(2, 2)]
    ensures AfterCount(rankings, s) == s.(cursors := [1, 1, 1, 1])
  {
    CountWithNoneEliminated(rankings, s.cursors, s.eliminated);
    var votes := Votes(rankings, s.cursors, s.eliminated);
    assert votes == [Some(0), Some(1), Some(2), Some(2)];
    TallyOf4(votes);
  }

  /** No candidate holds a majority of 1, 1, 2 votes, and the count is no tie. */
  lemma RunoffNoMajority()
    ensures !IsTie([Entry(0, 1), Entry(1, 1), Entry(2, 2)]) && Majority([Entry(0, 1), Entry(1, 1), Entry(2, 2)]) == None
  {
    var counts := [Entry(0, 1), Entry(1, 1), Entry(2, 2)];
    TieIff(counts);
    var tail, last := counts[1..], counts[2..];
    assert tail == [Entry(1, 1), Entry(2, 2)] && tail[1..] == last && last == [Entry(2, 2)] && last[1..] == [];
    assert Total(counts) == 4 by {
      assert Total(last) == 2;
    }
    assert FirstOver(last, 4) == None;
  }

  /** Of 1, 1, 2 votes, candidates 0 and 1 share the fewest. */
  lemma RunoffLosers()
    ensures var counts := [Entry(0, 1), Entry(1, 1), Entry(2, 2)];
      KeysWithCount(counts, MinCount(counts)) == [0, 1]
  {
    var counts := [Entry(0, 1), Entry(1, 1), Entry(2, 2)];
    var tail, last := counts[1..], counts[2..];
    assert tail == [Entry(1, 1), Entry(2, 2)] && tail[1..] == last && last == [Entry(2, 2)] && last[1..] == [];
    assert MinCount(counts) == 1;
    assert KeysWithCount(last, 1) == [];
  }

  /** Eliminating candidates 0 and 1 of three leaves candidate 2 alone. */
  lemma FirstTwoOut()
    ensures EliminateAll([false, false, false], [0, 1]) == [true, true, false]
    ensures Remaining([true, true, false]) == [2]
  {
    var e := EliminateAll([false, false, false], [0, 1]);
    assert e[0] && e[1] && !e[2];
    assert [true, true, false][..2] == [true, true];
    assert [true, true][..1] == [true];
    assert [true][..0] == [];
  }

  /** The eliminated pair is written on the round as "first, second". */
  lemma PairNamed(names: seq<string>)
    requires |names| == 3
    ensures Join(NamesOf(names, [0, 1]), ", ") == names[0] + ", " + names[1]
  {
    var ns := NamesOf(names, [0, 1]);
    assert ns == [names[0], names[1]];
    assert ns[1..] == [names[1]];
  }

  lemma PairsJoined(names: seq<string>)
    requires names == ["Dilbert", "Alice", "Wally"] || names == ["Alice", "Bob", "Charlie"]
    ensures names == ["Dilbert", "Alice", "Wally"] ==> Join(NamesOf(names, [0, 1]), ", ") == "Dilbert, Alice"
    ensures names == ["Alice", "Bob", "Charlie"] ==> Join(NamesOf(names, [0, 1]), ", ") == "Alice, Bob"
  {
    PairNamed(names);
  }

  /** The state after the first pass of the runoff ballots: candidates 0 and 1 out, both named on the round. */
  function RunoffEnd(names: seq<string>): State
    requires |names| == 3
  {
    State([true, true, false], [1, 1, 1, 1],
      [Round([Entry(0, 1), Entry(1, 1), Entry(2, 2)], Some(Join(NamesOf(names, [0, 1]), ", ")), false, false)])
  }

  /** Marking the only round of the runoff's first count gives `RunoffEnd`. */
  lemma RunoffMarked(names: seq<string>, appended: State)
    requires |names| == 3
    requires appended == State([false, false, false], [1, 1, 1, 1], [Round([Entry(0, 1), Entry(1, 1), Entry(2, 2)], None, false, false)])
    ensures appended.(eliminated := [true, true, false],
      rounds := appended.rounds[..|appended.rounds| - 1] +
        [Last(appended.rounds).(eliminatedCandidate := Some(Join(NamesOf(names, [0, 1]), ", ")))]) == RunoffEnd(names)
  {
    assert appended.rounds[..0] == [];
  }

  /** The runoff's first count has no majority, so candidates 0 and 1, with the fewest votes, go. */
  lemma RunoffEliminates(names: seq<string>, appended: State, counts: Tally)
    requires |names| == 3
    requires counts == [Entry(0, 1), Entry(1, 1), Entry(2, 2)]
    requires appended == State([false, false, false], [1, 1, 1, 1], [Round(counts, None, false, false)])
    ensures KeysBelow(counts, |names|) && Majority(counts) == None
    ensures MajorityOrElimination(names, appended, counts) == EliminateLosers(names, appended, [0, 1])
  {
    assert Majority(counts) == None by {
      RunoffNoMajority();
    }
    assert KeysWithCount(counts, MinCount(counts)) == [0, 1] by {
      RunoffLosers();
    }
    NoMajorityEliminates(names, appended, counts, [0, 1]);
  }

  /** Eliminating candidates 0 and 1 from the runoff's first count leaves candidate 2 alone. */
  lemma RunoffSurvivor(names: seq<string>, appended: State)
    requires |names| == 3
    requires appended == State([false, false, false], [1, 1, 1, 1], [Round([Entry(0, 1), Entry(1, 1), Entry(2, 2)], None, false, false)])
    ensures EliminateLosers(names, appended, [0, 1]) == Stop(Ok(names[2]), RunoffEnd(names))
  {
    FirstTwoOut();
    SingleSurvivor(names, appended, [0, 1], [true, true, false], 2);
    RunoffMarked(names, appended);
  }

  /** Both variants decide the first count of the runoff ballots alike: candidate 2 is left alone and wins. */
  lemma RunoffDecision(names: seq<string>, rankings: seq<seq<nat>>, counted: State, counts: Tally)
    requires |names| == 3 && |rankings| == 4
    requires counts == [Entry(0, 1), Entry(1, 1), Entry(2, 2)]
    requires counted == State([false, false, false], [1, 1, 1, 1], [])
    ensures KeysBelow(counts, |names|)
    ensures Decide(names, rankings, counted, counts) == Stop(Ok(names[2]), RunoffEnd(names))
    ensures DecideCore(names, rankings, counted, counts) == Stop(Ok(names[2]), RunoffEnd(names))
  {
    var appended := counted.(rounds := [Round(counts, None, false, false)]);
    assert !IsTie(counts) by {
      RunoffNoMajority();
    }
    RunoffEliminates(names, appended, counts);
    RunoffSurvivor(names, appended);
  }

  /** src: Dilbert and Alice are eliminated together in round 1, which leaves Wally. */
  lemma TieForBiggestLosers(names: seq<string>, rankings: seq<seq<nat>>, s: State)
    requires names == ["Dilbert", "Alice", "Wally"]
    requires rankings == [[0, 1, 2], [1, 0, 2], [2, 0, 1], [2, 1, 0]]
    requires s == State([false, false, false], [0, 0, 0, 0], [])
    ensures WellFormed(names, rankings, s)
    ensures var (r, t) := Run(names, rankings, s);
      r == Ok("Wally") && t.eliminated == [true, true, false] &&
      t.rounds == [Round([Entry(0, 1), Entry(1, 1), Entry(2, 2)], Some("Dilbert, Alice"), false, false)]
  {
    var counts := [Entry(0, 1), Entry(1, 1), Entry(2, 2)];
    var counted := State([false, false, false], [1, 1, 1, 1], []);
    assert WellFormed(names, rankings, s) && RoundCount(rankings, s) == counts && AfterCount(rankings, s) == counted by {
      RunoffBallotsCount(rankings, s);
    }
    assert Run(names, rankings, s) == (Ok(names[2]), RunoffEnd(names)) by {
      RunoffDecision(names, rankings, counted, counts);
      PassStops(names, rankings, s, counts, Ok(names[2]), RunoffEnd(names));
    }
    PairsJoined(names);
  }

  /** core.py "Runoff Required": Alice and Bob are eliminated together, which leaves Charlie. */
  lemma CoreRunoffRequired(names: seq<string>, rankings: seq<seq<nat>>, s: State)
    requires names == ["Alice", "Bob", "Charlie"]
    requires rankings == [[0, 1, 2], [1, 0, 2], [2, 0, 1], [2, 1, 0]]
    requires s == State([false, false, false], [0, 0, 0, 0], [])
    ensures WellFormed(names, rankings, s)
    ensures var (r, t) := RunCore(names, rankings, s);
      r == "Charlie" && t.eliminated == [true, true, false] &&
      t.rounds == [Round([Entry(0, 1), Entry(1, 1), Entry(2, 2)], Some("Alice, Bob"), false, false)]
  {
    var counts := [Entry(0, 1), Entry(1, 1), Entry(2, 2)];
    var counted := State([false, false, false], [1, 1, 1, 1], []);
    assert WellFormed(names, rankings, s) && RoundCount(rankings, s) == counts && AfterCount(rankings, s) == counted by {
      RunoffBallotsCount(rankings, s);
    }
    assert RunCore(names, rankings, s) == (names[2], RunoffEnd(names)) by {
      RunoffDecision(names, rankings, counted, counts);
      CorePassStops(names, rankings, s, counts, names[2], RunoffEnd(names));
    }
    PairsJoined(names);
  }

  // ---- "Tie all the way" / "Tie Result" ---------------------------------------

  /** Four ballots that rank four candidates in rotation: every candidate is first on exactly one. */
  const Cyclic: seq<seq<nat>> := [[0, 1, 2, 3], [1, 2, 3, 0], [2, 3, 0, 1], [3, 0, 1, 2]]

  /** The count in round `k + 1` of the rotated ballots: one vote each for the candidates in column `k`. */
  function ColumnCount(k: nat): (t: Tally)
    requires k < 4
    ensures |t| == 4 && forall i :: 0 <= i < 4 ==> t[i] == Entry(Cyclic[i][k], 1)
  {
    [Entry(Cyclic[0][k], 1), Entry(Cyclic[1][k], 1), Entry(Cyclic[2][k], 1), Entry(Cyclic[3][k], 1)]
  }

  /** A vote for a candidate not yet counted appends it with one vote. */
  lemma {:induction false} AddVoteAppends(t: Tally, c: nat)
    requires forall i :: 0 <= i < |t| ==> t[i].candidate != c
    ensures AddVote(t, c) == t + [Entry(c, 1)]
  {
    if t != [] {
      AddVoteAppends(t[1..], c);
      assert [t[0]] + (t[1..] + [Entry(c, 1)]) == t + [Entry(c, 1)];
    }
  }

  /** Four votes for four different candidates give each of them one vote, in ballot order. */
  lemma FourDistinctVotes(a: nat, b: nat, c: nat, d: nat)
    requires a != b && a != c && a != d && b != c && b != d && c != d
    ensures TallyOf([Some(a), Some(b), Some(c), Some(d)]) == [Entry(a, 1), Entry(b, 1), Entry(c, 1), Entry(d, 1)]
  {
    TallyOf4([Some(a), Some(b), Some(c), Some(d)]);
    AddVoteAppends([], a);
    assert Record([], Some(a)) == [Entry(a, 1)];
    AddVoteAppends([Entry(a, 1)], b);
    assert Record([Entry(a, 1)], Some(b)) == [Entry(a, 1), Entry(b, 1)];
    AddVoteAppends([Entry(a, 1), Entry(b, 1)], c);
    assert Record([Entry(a, 1), Entry(b, 1)], Some(c)) == [Entry(a, 1), Entry(b, 1), Entry(c, 1)];
    AddVoteAppends([Entry(a, 1), Entry(b, 1), Entry(c, 1)], d);
  }

  /**
   * Round `k + 1` of the rotated ballots while nobody is eliminated: column `k`
   * is counted, a full tie, and every cursor moves to `k + 1`.
   */
  lemma ColumnRound(rankings: seq<seq<nat>>, s: State, k: nat)
    requires rankings == Cyclic && k < 4
    requires s.eliminated == [false, false, false, false] && s.cursors == [k, k, k, k]
    ensures WellFormedBallots(rankings, s.cursors, |s.eliminated|)
    ensures RoundCount(rankings, s) == ColumnCount(k) && IsTie(ColumnCount(k))
    ensures AfterCount(rankings, s) == s.(cursors := [k + 1, k + 1, k + 1, k + 1])
  {
    CountWithNoneEliminated(rankings, s.cursors, s.eliminated);
    var votes := Votes(rankings, s.cursors, s.eliminated);
    assert votes == [Some(Cyclic[0][k]), Some(Cyclic[1][k]), Some(Cyclic[2][k]), Some(Cyclic[3][k])];
    FourDistinctVotes(Cyclic[0][k], Cyclic[1][k], Cyclic[2][k], Cyclic[3][k]);
    TieIff(ColumnCount(k));
  }

  /**
   * The rotated ballots never break a tie among all four candidates: every ballot
   * gives its second entry one second-choice vote, so all four lead together.
   */
  lemma RotationNeverBreaks(rankings: seq<seq<nat>>, tied: seq<nat>)
    requires rankings == Cyclic && 0 in tied && 1 in tied && 2 in tied && 3 in tied
    ensures [] !in rankings && TieBreakWinner(SecondChoiceTally(rankings, tied)) == None
  {
    var votes := SecondChoices(rankings, tied);
    assert votes == [Some(1), Some(2), Some(3), Some(0)];
    FourDistinctVotes(1, 2, 3, 0);
    var second := [Entry(1, 1), Entry(2, 1), Entry(3, 1), Entry(0, 1)];
    assert SecondChoiceTally(rankings, tied) == second;
    assert MaxCount(second) == 1;
    var winners := KeysWithCount(second, 1);
    assert 1 in winners && 2 in winners;
    assert winners[0] == 1 ==> winners[0] != 2;
  }

  /**
   * One round of the rotated ballots, in both variants: the tie stands, the round
   * is appended as an unbroken tie, and the run goes on while any ballot has
   * unread preferences, that is, before the fourth round.
   */
  lemma RotationPass(names: seq<string>, rankings: seq<seq<nat>>, s: State, k: nat)
    requires |names| == 4 && rankings == Cyclic && k < 4
    requires s.eliminated == [false, false, false, false] && s.cursors == [k, k, k, k]
    ensures WellFormed(names, rankings, s) && RoundCount(rankings, s) == ColumnCount(k)
    ensures KeysBelow(ColumnCount(k), |names|)
    ensures var t := s.(cursors := [k + 1, k + 1, k + 1, k + 1], rounds := s.rounds + [Round(ColumnCount(k), None, true, false)]);
      && Decide(names, rankings, AfterCount(rankings, s), ColumnCount(k)) == DecideCore(names, rankings, AfterCount(rankings, s), ColumnCount(k))
      && Decide(names, rankings, AfterCount(rankings, s), ColumnCount(k)) == if k < 3 then Continue(t) else Stop(Ok(NoWinner), t)
  {
    var counts := ColumnCount(k);
    var counted := s.(cursors := [k + 1, k + 1, k + 1, k + 1]);
    assert WellFormedBallots(rankings, s.cursors, |s.eliminated|) && RoundCount(rankings, s) == counts
      && IsTie(counts) && AfterCount(rankings, s) == counted by {
      ColumnRound(rankings, s, k);
    }
    assert [] !in rankings && TieBreakWinner(SecondChoiceTally(rankings, Keys(counts))) == None by {
      assert Keys(counts) == [Cyclic[0][k], Cyclic[1][k], Cyclic[2][k], Cyclic[3][k]];
      RotationNeverBreaks(rankings, Keys(counts));
    }
    assert AnyMoreChoices(rankings, counted.cursors) <==> k < 3 by {
      assert counted.cursors[0] == k + 1 && |rankings[0]| == 4;
    }
    UnbrokenTie(names, rankings, counted, counts);
  }

  /** The ledger of a run of the rotated ballots: four unbroken ties, one per column. */
  function RotationLedger(): seq<Round>
  {
    [Round(ColumnCount(0), None, true, false), Round(ColumnCount(1), None, true, false),
     Round(ColumnCount(2), None, true, false), Round(ColumnCount(3), None, true, false)]
  }

  /** The state before round `k + 1` of the rotated ballots: `k` tie rounds behind, every cursor at `k`. */
  function RotationState(k: nat): (s: State)
    requires k <= 4
    ensures |s.eliminated| == 4 && |s.cursors| == 4 && |s.rounds| == k
  {
    State([false, false, false, false], [k, k, k, k], RotationLedger()[..k])
  }

  /** After four rounds nobody is eliminated and the ledger holds the four tie rounds. */
  lemma RotationFinal()
    ensures RotationState(4).eliminated == [false, false, false, false] && RotationState(4).rounds == RotationLedger()
  {
    assert RotationLedger()[..4] == RotationLedger();
  }

  /** Every state of the rotated run is well formed. */
  lemma RotationWellFormed(names: seq<string>, rankings: seq<seq<nat>>, k: nat)
    requires |names| == 4 && rankings == Cyclic && k <= 4
    ensures WellFormed(names, rankings, RotationState(k))
  {
    assert forall i :: 0 <= i < 4 ==> |rankings[i]| == 4 && Ranks(rankings[i], 4);
  }

  /** A round of the rotated ballots under the later variant, from the state before it to the state after. */
  lemma RotationStep(names: seq<string>, rankings: seq<seq<nat>>, k: nat)
    requires |names| == 4 && rankings == Cyclic && k < 4
    ensures WellFormed(names, rankings, RotationState(k)) && WellFormed(names, rankings, RotationState(k + 1))
    ensures Run(names, rankings, RotationState(k)) ==
      if k < 3 then Run(names, rankings, RotationState(k + 1)) else (Ok(NoWinner), RotationState(4))
  {
    RotationWellFormed(names, rankings, k);
    RotationWellFormed(names, rankings, k + 1);
    var s := RotationState(k);
    var t := s.(cursors := [k + 1, k + 1, k + 1, k + 1], rounds := s.rounds + [Round(ColumnCount(k), None, true, false)]);
    assert t == RotationState(k + 1) by {
      assert RotationLedger()[..k + 1] == RotationLedger()[..k] + [RotationLedger()[k]];
    }
    RotationPass(names, rankings, s, k);
    if k < 3 {
      PassContinues(names, rankings, s, ColumnCount(k), t);
    } else {
      PassStops(names, rankings, s, ColumnCount(k), Ok(NoWinner), t);
    }
  }

  /** The same round under core.py's variant. */
  lemma CoreRotationStep(names: seq<string>, rankings: seq<seq<nat>>, k: nat)
    requires |names| == 4 && rankings == Cyclic && k < 4
    ensures WellFormed(names, rankings, RotationState(k)) && WellFormed(names, rankings, RotationState(k + 1))
    ensures RunCore(names, rankings, RotationState(k)) ==
      if k < 3 then RunCore(names, rankings, RotationState(k + 1)) else (NoWinner, RotationState(4))
  {
    RotationWellFormed(names, rankings, k);
    RotationWellFormed(names, rankings, k + 1);
    var s := RotationState(k);
    var t := s.(cursors := [k + 1, k + 1, k + 1, k + 1], rounds := s.rounds + [Round(ColumnCount(k), None, true, false)]);
    assert t == RotationState(k + 1) by {
      assert RotationLedger()[..k + 1] == RotationLedger()[..k] + [RotationLedger()[k]];
    }
    RotationPass(names, rankings, s, k);
    if k < 3 {
      CorePassContinues(names, rankings, s, ColumnCount(k), t);
    } else {
      CorePassStops(names, rankings, s, ColumnCount(k), NoWinner, t);
    }
  }

  /** Under the later variant, the rotated ballots tie in every round from round `k + 1` on and nobody wins. */
  lemma {:induction false} RotationRun(names: seq<string>, rankings: seq<seq<nat>>, k: nat)
    requires |names| == 4 && rankings == Cyclic && k < 4
    ensures WellFormed(names, rankings, RotationState(k))
    ensures Run(names, rankings, RotationState(k)) == (Ok(NoWinner), RotationState(4))
    decreases 4 - k
  {
    RotationStep(names, rankings, k);
    if k < 3 {
      RotationRun(names, rankings, k + 1);
    }
  }

  /**
   * src "Tie all the way": every round is a four-way tie that the second choices
   * cannot break; after four rounds no ballot has preferences left and there is
   * no winner.
   */
  lemma TieAllTheWay(names: seq<string>, rankings: seq<seq<nat>>)
    requires names == ["Dilbert", "Alice", "Wally", "Dave"] && rankings == Cyclic
    ensures WellFormed(names, rankings, RotationState(0))
    ensures var (r, t) := Run(names, rankings, RotationState(0));
      r == Ok(NoWinner) && t.eliminated == [false, false, false, false] && t.rounds == RotationLedger()
  {
    RotationRun(names, rankings, 0);
    RotationFinal();
  }

  /** Under the earlier variant, the rotated ballots tie in every round from round `k + 1` on and nobody wins. */
  lemma {:induction false} CoreRotationRun(names: seq<string>, rankings: seq<seq<nat>>, k: nat)
    requires |names| == 4 && rankings == Cyclic && k < 4
    ensures WellFormed(names, rankings, RotationState(k))
    ensures RunCore(names, rankings, RotationState(k)) == (NoWinner, RotationState(4))
    decreases 4 - k
  {
    CoreRotationStep(names, rankings, k);
    if k < 3 {
      CoreRotationRun(names, rankings, k + 1);
    }
  }

  /** core.py "Tie Result": the same rotation ends with "No winner" after four tie rounds. */
  lemma CoreTieResult(names: seq<string>, rankings: seq<seq<nat>>)
    requires names == ["Alice", "Bob", "Charlie", "David"] && rankings == Cyclic
    ensures WellFormed(names, rankings, RotationState(0))
    ensures var (r, t) := RunCore(names, rankings, RotationState(0));
      r == NoWinner && t.eliminated == [false, false, false, false] && t.rounds == RotationLedger()
  {
    CoreRotationRun(names, rankings, 0);
    RotationFinal();
  }
}
