/**
 * The vote count of one round. Python keeps it in a `defaultdict(int)` keyed by
 * candidate; its iteration order is the order in which keys were first set, so
 * the model is a sequence of entries in first-seen order.
 */
module Tallies {
  import opened Wrappers

  /** One key/value pair of the count: a candidate (registry index) and its votes. */
  datatype Entry = Entry(candidate: nat, votes: nat)

  type Tally = seq<Entry>

  function Keys(t: Tally): seq<nat>
  {
    seq(|t|, i requires 0 <= i < |t| => t[i].candidate)
  }

  /** A dict never holds a key twice. */
  predicate DistinctKeys(t: Tally)
  {
    forall i, j :: 0 <= i < j < |t| ==> t[i].candidate != t[j].candidate
  }

  /** Every value is at least one: a key is only created by a vote. */
  predicate Positive(t: Tally)
  {
    forall i :: 0 <= i < |t| ==> t[i].votes >= 1
  }

  /** `counts.get(c, 0)` */
  function CountOf(t: Tally, c: nat): nat
  {
    if t == [] then 0
    else if t[0].candidate == c then t[0].votes
    else CountOf(t[1..], c)
  }

  /** `sum(counts.values())` */
  function Total(t: Tally): nat
  {
    if t == [] then 0 else t[0].votes + Total(t[1..])
  }

  /** `counts[c] += 1` on a defaultdict: bump an existing key in place, or append a new key with 1. */
  function AddVote(t: Tally, c: nat): Tally
  {
    if t == [] then [Entry(c, 1)]
    else if t[0].candidate == c then [Entry(c, t[0].votes + 1)] + t[1..]
    else [t[0]] + AddVote(t[1..], c)
  }

  /** Incrementing keeps the key order and appends a key that was missing. */
  lemma {:induction false} AddVoteKeys(t: Tally, c: nat)
    ensures Keys(AddVote(t, c)) == if c in Keys(t) then Keys(t) else Keys(t) + [c]
  {
    if t != [] {
      assert Keys(t) == [t[0].candidate] + Keys(t[1..]);
      if t[0].candidate != c {
        AddVoteKeys(t[1..], c);
        assert Keys(AddVote(t, c)) == [t[0].candidate] + Keys(AddVote(t[1..], c));
      } else {
        assert Keys(AddVote(t, c)) == Keys(t);
      }
    }
  }

  /** Exactly one vote is added, to `c`. */
  lemma {:induction false} AddVoteCounts(t: Tally, c: nat)
    ensures forall x: nat :: CountOf(AddVote(t, c), x) == CountOf(t, x) + (if x == c then 1 else 0)
    ensures Total(AddVote(t, c)) == Total(t) + 1
    ensures Positive(t) ==> Positive(AddVote(t, c))
  {
    if t != [] && t[0].candidate != c {
      AddVoteCounts(t[1..], c);
      assert AddVote(t, c)[1..] == AddVote(t[1..], c);
    }
  }

  lemma DistinctKeysCons(e: Entry, t: Tally)
    requires DistinctKeys(t) && e.candidate !in Keys(t)
    ensures DistinctKeys([e] + t)
  {
    forall i, j | 0 <= i < j < |t| + 1 ensures ([e] + t)[i].candidate != ([e] + t)[j].candidate {
      if i == 0 { assert Keys(t)[j - 1] == t[j - 1].candidate; }
    }
  }

  /** Incrementing never duplicates a key. */
  lemma {:induction false} AddVoteDistinct(t: Tally, c: nat)
    requires DistinctKeys(t)
    ensures DistinctKeys(AddVote(t, c))
  {
    if t != [] {
      assert DistinctKeys(t[1..]);
      assert t[0].candidate !in Keys(t[1..]) by {
        forall i | 0 <= i < |t| - 1 ensures Keys(t[1..])[i] != t[0].candidate {
          assert t[1..][i] == t[i + 1];
        }
      }
      if t[0].candidate != c {
        AddVoteDistinct(t[1..], c);
        AddVoteKeys(t[1..], c);
        DistinctKeysCons(t[0], AddVote(t[1..], c));
      } else {
        DistinctKeysCons(Entry(c, t[0].votes + 1), t[1..]);
      }
    }
  }

  /** Adds one ballot's vote (or nothing, for an exhausted ballot) to the count. */
  function Record(t: Tally, v: Option<nat>): Tally
  {
    match v
    case None => t
    case Some(c) => AddVote(t, c)
  }

  lemma RecordFacts(t: Tally, v: Option<nat>)
    requires DistinctKeys(t) && Positive(t)
    ensures DistinctKeys(Record(t, v)) && Positive(Record(t, v))
    ensures forall x: nat :: CountOf(Record(t, v), x) == CountOf(t, x) + (if v == Some(x) then 1 else 0)
    ensures forall x: nat :: x in Keys(Record(t, v)) <==> x in Keys(t) || v == Some(x)
    ensures Total(Record(t, v)) == Total(t) + (if v.Some? then 1 else 0)
  {
    if v.Some? {
      AddVoteKeys(t, v.value);
      AddVoteCounts(t, v.value);
      AddVoteDistinct(t, v.value);
    }
  }

  /** Number of votes in `votes` that name `c`. */
  function Occurrences(votes: seq<Option<nat>>, c: nat): nat
  {
    if votes == [] then 0
    else Occurrences(votes[..|votes| - 1], c) + (if votes[|votes| - 1] == Some(c) then 1 else 0)
  }

  /** Number of ballots that cast a vote. */
  function CountSome(votes: seq<Option<nat>>): (n: nat)
  {
    if votes == [] then 0
    else CountSome(votes[..|votes| - 1]) + (if votes[|votes| - 1].Some? then 1 else 0)
  }

  /** The count built by a loop over the ballots' votes, one `Record` per ballot in ballot order. */
  function TallyOf(votes: seq<Option<nat>>): Tally
  {
    if votes == [] then []
    else Record(TallyOf(votes[..|votes| - 1]), votes[|votes| - 1])
  }

  /**
   * What the count means: each key is a candidate somebody voted for, no key
   * repeats, and each is counted exactly as often as it was voted for; the total
   * is the number of ballots that voted.
   */
  lemma {:induction false} TallyOfFacts(votes: seq<Option<nat>>)
    ensures var t := TallyOf(votes);
      && DistinctKeys(t) && Positive(t)
      && (forall c: nat :: CountOf(t, c) == Occurrences(votes, c))
      && (forall c: nat :: c in Keys(t) <==> Some(c) in votes)
      && Total(t) == CountSome(votes) <= |votes|
  {
    if votes != [] {
      var init := votes[..|votes| - 1];
      var last := votes[|votes| - 1];
      assert votes == init + [last];
      TallyOfFacts(init);
      RecordFacts(TallyOf(init), last);
      assert forall c: nat :: Some(c) in votes <==> Some(c) in init || last == Some(c);
    }
  }

  /** Counting one more ballot is one more `Record`. */
  lemma TallyOfPrefix(votes: seq<Option<nat>>, i: nat)
    requires i < |votes|
    ensures TallyOf(votes[..i + 1]) == Record(TallyOf(votes[..i]), votes[i])
  {
    assert votes[..i + 1][..i] == votes[..i];
  }

  /** `len(set(counts.values())) == 1 and len(counts) > 1` */
  predicate IsTie(t: Tally)
  {
    |set i | 0 <= i < |t| :: t[i].votes| == 1 && |t| > 1
  }

  /** A full tie is two or more keys that all have the same count. */
  lemma TieIff(t: Tally)
    ensures IsTie(t) <==> |t| >= 2 && forall i :: 0 <= i < |t| ==> t[i].votes == t[0].votes
  {
    var values := set i | 0 <= i < |t| :: t[i].votes;
    if |t| >= 2 {
      if forall i :: 0 <= i < |t| ==> t[i].votes == t[0].votes {
        assert values == {t[0].votes};
      }
      if |values| == 1 {
        assert t[0].votes in values;
        assert |values - {t[0].votes}| == 0;
        forall i | 0 <= i < |t| ensures t[i].votes == t[0].votes {
          assert t[i].votes in values;
          assert t[i].votes !in values - {t[0].votes};
        }
      }
    }
  }

  /** `min(counts.values())` */
  function MinCount(t: Tally): (m: nat)
    requires t != []
    ensures forall i :: 0 <= i < |t| ==> m <= t[i].votes
    ensures exists i :: 0 <= i < |t| && t[i].votes == m
  {
    if |t| == 1 then t[0].votes
    else
      var rest := MinCount(t[1..]);
      assert forall i :: 1 <= i < |t| ==> t[i] == t[1..][i - 1];
      if t[0].votes <= rest then t[0].votes else rest
  }

  /** `max(counts.values())` */
  function MaxCount(t: Tally): (m: nat)
    requires t != []
    ensures forall i :: 0 <= i < |t| ==> t[i].votes <= m
    ensures exists i :: 0 <= i < |t| && t[i].votes == m
  {
    if |t| == 1 then t[0].votes
    else
      var rest := MaxCount(t[1..]);
      assert forall i :: 1 <= i < |t| ==> t[i] == t[1..][i - 1];
      if t[0].votes >= rest then t[0].votes else rest
  }

  /** `[c for c, v in counts.items() if v == value]`, in key order. */
  function KeysWithCount(t: Tally, value: nat): (ks: seq<nat>)
    ensures |ks| <= |t|
    ensures forall c: nat :: c in ks <==> exists i :: 0 <= i < |t| && t[i].candidate == c && t[i].votes == value
    ensures forall j :: 0 <= j < |ks| ==> exists i :: 0 <= i < |t| && t[i].candidate == ks[j]
    ensures DistinctKeys(t) ==> forall i, j :: 0 <= i < j < |ks| ==> ks[i] != ks[j]
  {
    if t == [] then []
    else
      var rest := KeysWithCount(t[1..], value);
      assert forall i :: 1 <= i < |t| ==> t[i] == t[1..][i - 1];
      assert forall j :: 0 <= j < |rest| ==> rest[j] in rest;
      assert DistinctKeys(t) ==> DistinctKeys(t[1..]) && t[0].candidate !in rest;
      (if t[0].votes == value then [t[0].candidate] else []) + rest
  }

  /**
   * The selection keeps tally order: it distributes over concatenation, so
   * keys from earlier entries always come before keys from later ones (and a
   * single entry is kept exactly when it has the count, by definition).
   */
  lemma {:induction false} KeysWithCountOrder(a: Tally, b: Tally, value: nat)
    ensures KeysWithCount(a + b, value) == KeysWithCount(a, value) + KeysWithCount(b, value)
  {
    if a == [] {
      assert a + b == b;
    } else {
      var head: seq<nat> := if a[0].votes == value then [a[0].candidate] else [];
      var rest := KeysWithCount(a[1..], value);
      assert KeysWithCount(a + b, value) == head + KeysWithCount(a[1..] + b, value) by {
        assert (a + b)[0] == a[0] && (a + b)[1..] == a[1..] + b;
      }
      KeysWithCountOrder(a[1..], b, value);
      AppendAssociates(head, rest, KeysWithCount(b, value));
    }
  }

  /** Sequence concatenation associates (a step kept out of larger contexts). */
  lemma AppendAssociates<T>(x: seq<T>, y: seq<T>, z: seq<T>)
    ensures x + (y + z) == (x + y) + z
  {
  }

  /** No entry has the count: nothing is selected. */
  lemma {:induction false} KeysWithCountNone(t: Tally, value: nat)
    requires forall i :: 0 <= i < |t| ==> t[i].votes != value
    ensures KeysWithCount(t, value) == []
  {
    if t != [] {
      assert forall i :: 1 <= i < |t| ==> t[1..][i - 1] == t[i];
      KeysWithCountNone(t[1..], value);
    }
  }

  /** Exactly entry `k` has the count: its key alone is selected. */
  lemma {:induction false} KeysWithCountOne(t: Tally, value: nat, k: nat)
    requires k < |t| && t[k].votes == value
    requires forall i :: 0 <= i < |t| && i != k ==> t[i].votes != value
    ensures KeysWithCount(t, value) == [t[k].candidate]
  {
    assert forall i :: 1 <= i < |t| ==> t[1..][i - 1] == t[i];
    if k == 0 {
      KeysWithCountNone(t[1..], value);
    } else {
      KeysWithCountOne(t[1..], value, k - 1);
    }
  }

  /** The first key, in key order, whose count `v` satisfies `v > total / 2`. */
  function FirstOver(t: Tally, total: nat): (w: Option<nat>)
    ensures w.Some? ==> exists i :: 0 <= i < |t| && t[i].candidate == w.value && 2 * t[i].votes > total
    ensures w.None? ==> forall i :: 0 <= i < |t| ==> 2 * t[i].votes <= total
  {
    if t == [] then None
    else if 2 * t[0].votes > total then Some(t[0].candidate)
    else
      assert forall i :: 1 <= i < |t| ==> t[i] == t[1..][i - 1];
      FirstOver(t[1..], total)
  }

  /** The majority check of a round: a candidate with more than half of the votes cast. */
  function Majority(t: Tally): Option<nat>
  {
    FirstOver(t, Total(t))
  }

  /** Two different keys together hold at most all the votes. */
  lemma {:induction false} PairAtMostTotal(t: Tally, i: nat, j: nat)
    requires i < |t| && j < |t| && i != j
    ensures t[i].votes + t[j].votes <= Total(t)
  {
    if i != 0 && j != 0 {
      PairAtMostTotal(t[1..], i - 1, j - 1);
    } else {
      var k := if i == 0 then j else i;
      EntryAtMostTotal(t[1..], k - 1);
    }
  }

  lemma {:induction false} EntryAtMostTotal(t: Tally, i: nat)
    requires i < |t|
    ensures t[i].votes <= Total(t)
  {
    if i != 0 {
      EntryAtMostTotal(t[1..], i - 1);
    }
  }

  /** At most one entry can hold a strict majority, so the first one found is the only one. */
  lemma MajorityUnique(t: Tally, i: nat, j: nat)
    requires i < |t| && j < |t|
    requires 2 * t[i].votes > Total(t) && 2 * t[j].votes > Total(t)
    ensures i == j
  {
    if i != j {
      PairAtMostTotal(t, i, j);
    }
  }

  /** In a full tie nobody has a majority. */
  lemma TieHasNoMajority(t: Tally)
    requires IsTie(t)
    ensures Majority(t) == None
  {
    TieIff(t);
    forall i | 0 <= i < |t| ensures 2 * t[i].votes <= Total(t) {
      PairAtMostTotal(t, i, if i == 0 then 1 else 0);
    }
  }

  /** A count with a single key gives that key every vote, which is a majority. */
  lemma SingleKeyIsMajority(t: Tally)
    requires |t| == 1 && Positive(t)
    ensures Majority(t) == Some(t[0].candidate)
  {
    assert Total(t) == t[0].votes;
  }

  /**
   * When the round is neither a tie nor won outright, some tallied candidate has
   * more than the minimum, so eliminating every minimum-count key spares it.
   */
  lemma SurvivorExists(t: Tally) returns (i: nat)
    requires t != [] && DistinctKeys(t) && Positive(t)
    requires !IsTie(t) && Majority(t) == None
    ensures i < |t| && t[i].candidate !in KeysWithCount(t, MinCount(t))
  {
    if |t| == 1 {
      SingleKeyIsMajority(t);
    }
    TieIff(t);
    var j :| 0 <= j < |t| && t[j].votes != t[0].votes;
    i := if t[0].votes > MinCount(t) then 0 else j;
    forall k | 0 <= k < |t| && t[k].candidate == t[i].candidate ensures t[k].votes != MinCount(t) {
      assert k == i;
    }
  }

  /** With distinct keys, a key's count is the value stored with it. */
  lemma {:induction false} CountOfKey(t: Tally, i: nat)
    requires DistinctKeys(t) && i < |t|
    ensures CountOf(t, t[i].candidate) == t[i].votes
  {
    if i > 0 {
      assert DistinctKeys(t[1..]);
      assert t[1..][i - 1] == t[i];
      CountOfKey(t[1..], i - 1);
    }
  }

  /** Being among the keys with a given count is having that count. */
  lemma KeysWithCountIff(t: Tally, value: nat, c: nat)
    requires DistinctKeys(t)
    ensures c in KeysWithCount(t, value) <==> c in Keys(t) && CountOf(t, c) == value
  {
    if c in Keys(t) {
      var i :| 0 <= i < |t| && Keys(t)[i] == c;
      CountOfKey(t, i);
      forall j | 0 <= j < |t| && t[j].candidate == c ensures j == i { }
    } else {
      forall i | 0 <= i < |t| ensures t[i].candidate != c {
        assert Keys(t)[i] == t[i].candidate;
      }
    }
  }
}
