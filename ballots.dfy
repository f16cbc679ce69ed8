/**
 * A ballot: a ranking of candidates and a cursor, `current_rank`, that only ever
 * moves forward. Candidates are registry indices; whether a candidate is
 * eliminated is one flag per index, owned by the election and read by every
 * ballot (the Python shares one `Candidate` object between the registry and
 * every ballot that ranks it).
 */
module Ballots {
  import opened Wrappers
  import opened Tallies

  /** Every entry of the ranking is a registered candidate. */
  predicate Ranks(r: seq<nat>, n: nat)
  {
    forall i :: 0 <= i < |r| ==> r[i] < n
  }

  /**
   * Index of the first entry at or after cursor `k` whose candidate is not
   * eliminated, or `|r|` when there is none.
   */
  function NextIndex(r: seq<nat>, k: nat, eliminated: seq<bool>): (j: nat)
    requires k <= |r| && Ranks(r, |eliminated|)
    ensures k <= j <= |r|
    ensures j < |r| ==> !eliminated[r[j]]
    ensures forall i :: k <= i < j ==> eliminated[r[i]]
    decreases |r| - k
  {
    if k == |r| then k
    else if !eliminated[r[k]] then k
    else NextIndex(r, k + 1, eliminated)
  }

  /** What `get_next_choice` returns for a ballot whose cursor is `k`. */
  function Vote(r: seq<nat>, k: nat, eliminated: seq<bool>): Option<nat>
    requires k <= |r| && Ranks(r, |eliminated|)
  {
    var j := NextIndex(r, k, eliminated);
    if j < |r| then Some(r[j]) else None
  }

  /** Where `get_next_choice` leaves the cursor: one past the choice, or at the end. */
  function Advance(r: seq<nat>, k: nat, eliminated: seq<bool>): nat
    requires k <= |r| && Ranks(r, |eliminated|)
  {
    var j := NextIndex(r, k, eliminated);
    if j < |r| then j + 1 else |r|
  }

  /** Every ballot's cursor lies within its ranking and names only registered candidates. */
  predicate WellFormedBallots(rankings: seq<seq<nat>>, cursors: seq<nat>, n: nat)
  {
    |cursors| == |rankings| &&
    forall i :: 0 <= i < |rankings| ==> cursors[i] <= |rankings[i]| && Ranks(rankings[i], n)
  }

  /** The vote each ballot casts in one `count_votes` pass, in ballot order. */
  function Votes(rankings: seq<seq<nat>>, cursors: seq<nat>, eliminated: seq<bool>): seq<Option<nat>>
    requires WellFormedBallots(rankings, cursors, |eliminated|)
  {
    seq(|rankings|, i requires 0 <= i < |rankings| => Vote(rankings[i], cursors[i], eliminated))
  }

  /** Every ballot's cursor after one `count_votes` pass. */
  function AdvanceAll(rankings: seq<seq<nat>>, cursors: seq<nat>, eliminated: seq<bool>): seq<nat>
    requires WellFormedBallots(rankings, cursors, |eliminated|)
  {
    seq(|rankings|, i requires 0 <= i < |rankings| => Advance(rankings[i], cursors[i], eliminated))
  }

  /** `any(ballot.has_more_choices() for ballot in ballots)` */
  predicate AnyMoreChoices(rankings: seq<seq<nat>>, cursors: seq<nat>)
    requires |cursors| == |rankings|
  {
    exists i :: 0 <= i < |rankings| && cursors[i] < |rankings[i]|
  }

  /** Number of ballots that still have unread preferences. */
  function LiveCount(rankings: seq<seq<nat>>, cursors: seq<nat>): nat
    requires |cursors| == |rankings|
  {
    if rankings == [] then 0
    else
      var n := |rankings| - 1;
      LiveCount(rankings[..n], cursors[..n]) + (if cursors[n] < |rankings[n]| then 1 else 0)
  }

  /** The termination measure of the election loop: unread preferences over all ballots. */
  function Unread(rankings: seq<seq<nat>>, cursors: seq<nat>): nat
    requires |cursors| == |rankings|
    requires forall i :: 0 <= i < |rankings| ==> cursors[i] <= |rankings[i]|
  {
    if rankings == [] then 0
    else
      var n := |rankings| - 1;
      Unread(rankings[..n], cursors[..n]) + (|rankings[n]| - cursors[n])
  }

  /**
   * The cursor contract of `get_next_choice`: a vote is the first non-eliminated
   * candidate at or after the cursor and leaves the cursor just past it; no vote
   * leaves the cursor at the end. The cursor never moves back, and it moves at
   * all exactly when the ballot `has_more_choices`.
   */
  lemma NextChoiceContract(r: seq<nat>, k: nat, eliminated: seq<bool>)
    requires k <= |r| && Ranks(r, |eliminated|)
    ensures k <= Advance(r, k, eliminated) <= |r|
    ensures Vote(r, k, eliminated).Some? ==>
      exists j :: k <= j < |r| && Vote(r, k, eliminated) == Some(r[j]) && !eliminated[r[j]]
        && Advance(r, k, eliminated) == j + 1
        && forall i :: k <= i < j ==> eliminated[r[i]]
    ensures Vote(r, k, eliminated).None? <==> Advance(r, k, eliminated) == |r| && forall i :: k <= i < |r| ==> eliminated[r[i]]
    ensures k < |r| <==> k < Advance(r, k, eliminated)
  {
  }

  /** A vote is never for an eliminated candidate, and it is always a ranked candidate. */
  lemma VotesAreActive(rankings: seq<seq<nat>>, cursors: seq<nat>, eliminated: seq<bool>)
    requires WellFormedBallots(rankings, cursors, |eliminated|)
    ensures forall c: nat :: Some(c) in Votes(rankings, cursors, eliminated) ==> c < |eliminated| && !eliminated[c]
  {
    var votes := Votes(rankings, cursors, eliminated);
    forall c: nat | Some(c) in votes ensures c < |eliminated| && !eliminated[c] {
      var i :| 0 <= i < |votes| && votes[i] == Some(c);
      assert Vote(rankings[i], cursors[i], eliminated) == Some(c);
    }
  }

  /** Advancing keeps every cursor within its ranking, and never moves one back. */
  lemma AdvanceAllWellFormed(rankings: seq<seq<nat>>, cursors: seq<nat>, eliminated: seq<bool>)
    requires WellFormedBallots(rankings, cursors, |eliminated|)
    ensures WellFormedBallots(rankings, AdvanceAll(rankings, cursors, eliminated), |eliminated|)
    ensures forall i :: 0 <= i < |cursors| ==> cursors[i] <= AdvanceAll(rankings, cursors, eliminated)[i]
  {
  }

  /**
   * Every ballot that votes had unread preferences, and every ballot that still
   * has unread preferences afterwards voted.
   */
  lemma {:induction false} LiveBounds(rankings: seq<seq<nat>>, cursors: seq<nat>, eliminated: seq<bool>)
    requires WellFormedBallots(rankings, cursors, |eliminated|)
    ensures LiveCount(rankings, AdvanceAll(rankings, cursors, eliminated)) <= CountSome(Votes(rankings, cursors, eliminated))
    ensures CountSome(Votes(rankings, cursors, eliminated)) <= LiveCount(rankings, cursors)
  {
    if rankings != [] {
      var n := |rankings| - 1;
      LiveBounds(rankings[..n], cursors[..n], eliminated);
      assert Votes(rankings, cursors, eliminated)[..n] == Votes(rankings[..n], cursors[..n], eliminated);
      assert AdvanceAll(rankings, cursors, eliminated)[..n] == AdvanceAll(rankings[..n], cursors[..n], eliminated);
      NextChoiceContract(rankings[n], cursors[n], eliminated);
    }
  }

  /**
   * One `count_votes` pass uses up at least one unread preference per vote cast,
   * so a pass that produced a non-empty count strictly shrinks the measure.
   */
  lemma {:induction false} UnreadDrops(rankings: seq<seq<nat>>, cursors: seq<nat>, eliminated: seq<bool>)
    requires WellFormedBallots(rankings, cursors, |eliminated|)
    ensures Unread(rankings, AdvanceAll(rankings, cursors, eliminated)) + CountSome(Votes(rankings, cursors, eliminated))
      <= Unread(rankings, cursors)
  {
    if rankings != [] {
      var n := |rankings| - 1;
      UnreadDrops(rankings[..n], cursors[..n], eliminated);
      assert Votes(rankings, cursors, eliminated)[..n] == Votes(rankings[..n], cursors[..n], eliminated);
      assert AdvanceAll(rankings, cursors, eliminated)[..n] == AdvanceAll(rankings[..n], cursors[..n], eliminated);
      NextChoiceContract(rankings[n], cursors[n], eliminated);
    }
  }

  /** A pass in which nobody voted leaves every ballot exhausted. */
  lemma {:induction false} NoVotesExhausts(rankings: seq<seq<nat>>, cursors: seq<nat>, eliminated: seq<bool>)
    requires WellFormedBallots(rankings, cursors, |eliminated|)
    requires CountSome(Votes(rankings, cursors, eliminated)) == 0
    ensures !AnyMoreChoices(rankings, AdvanceAll(rankings, cursors, eliminated))
  {
    AdvanceAllWellFormed(rankings, cursors, eliminated);
    LiveBounds(rankings, cursors, eliminated);
    LiveCountPositive(rankings, AdvanceAll(rankings, cursors, eliminated));
  }

  /** Some ballot has more choices exactly when the number of such ballots is positive. */
  lemma {:induction false} LiveCountPositive(rankings: seq<seq<nat>>, cursors: seq<nat>)
    requires |cursors| == |rankings|
    ensures AnyMoreChoices(rankings, cursors) <==> LiveCount(rankings, cursors) > 0
  {
    if rankings != [] {
      var n := |rankings| - 1;
      LiveCountPositive(rankings[..n], cursors[..n]);
      if AnyMoreChoices(rankings, cursors) && cursors[n] >= |rankings[n]| {
        var i :| 0 <= i < |rankings| && cursors[i] < |rankings[i]|;
        assert AnyMoreChoices(rankings[..n], cursors[..n]) by {
          assert rankings[..n][i] == rankings[i] && cursors[..n][i] == cursors[i];
        }
      }
    }
  }

  class Ballot {
    const rankings: seq<nat>
    var currentRank: nat

    ghost predicate Valid(n: nat)
      reads this
    {
      currentRank <= |rankings| && Ranks(rankings, n)
    }

    constructor (rankings: seq<nat>)
      ensures this.rankings == rankings && currentRank == 0
    {
      this.rankings := rankings;
      currentRank := 0;
    }

    /** Reads forward from the cursor, past eliminated candidates, and returns the first active one. */
    method GetNextChoice(eliminated: array<bool>) returns (choice: Option<nat>)
      requires Valid(eliminated.Length)
      modifies this
      ensures Valid(eliminated.Length)
      ensures choice == Vote(rankings, old(currentRank), eliminated[..])
      ensures currentRank == Advance(rankings, old(currentRank), eliminated[..])
    {
      while currentRank < |rankings|
        invariant old(currentRank) <= currentRank <= |rankings|
        invariant NextIndex(rankings, old(currentRank), eliminated[..]) == NextIndex(rankings, currentRank, eliminated[..])
      {
        var candidate := rankings[currentRank];
        currentRank := currentRank + 1;
        if !eliminated[candidate] {
          return Some(candidate);
        }
      }
      return None;
    }

    predicate HasMoreChoices()
      reads this
    {
      currentRank < |rankings|
    }

    /** `rankings[1]`, whether or not it is eliminated. */
    function GetSecondChoice(): (c: Option<nat>)
      ensures c.Some? <==> |rankings| >= 2
      ensures c.Some? ==> c.value == rankings[1] && c.value in rankings
    {
      if |rankings| > 1 then Some(rankings[1]) else None
    }
  }
}
