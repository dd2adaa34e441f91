/** Votes for candidates, counted by walking a hash map in whatever order the runtime
    picks. The outcome is still determined, because a vote is counted right away:
    between votes no candidate holds its threshold. */
module Voting {
  import opened Outcome
  import opened Addresses
  import opened Widths
  import opened Configs

  /** Each voter's candidate, by position in the list of candidates. */
  datatype Poll<+C> = Poll(votes: map<Address, nat>, candidates: seq<C>)

  function NewPoll<C>(): Poll<C> {
    Poll(map[], [])
  }

  /** Go's conversion of a uint64 threshold to int. */
  function AsInt(threshold: uint64): int {
    if threshold < TWO_64 / 2 then threshold else threshold - TWO_64
  }

  function Voters(votes: map<Address, nat>, index: nat): set<Address> {
    set a | a in votes && votes[a] == index
  }

  /** The index has votes, and enough of them. */
  predicate Wins(votes: map<Address, nat>, index: nat, required: int) {
    Voters(votes, index) != {} && |Voters(votes, index)| >= required
  }

  // ----- counting

  /** The voters for the index that are not left to count. */
  function Seen(votes: map<Address, nat>, rest: set<Address>, index: nat): set<Address> {
    Voters(votes, index) - rest
  }

  ghost predicate CountedAt(votes: map<Address, nat>, rest: set<Address>, numVotes: map<nat, nat>, index: nat) {
    && (index in numVotes <==> Seen(votes, rest, index) != {})
    && (index in numVotes ==> numVotes[index] == |Seen(votes, rest, index)|)
  }

  ghost predicate Counted(votes: map<Address, nat>, rest: set<Address>, numVotes: map<nat, nat>) {
    forall i: nat :: CountedAt(votes, rest, numVotes, i)
  }

  function Increment(numVotes: map<nat, nat>, index: nat): map<nat, nat> {
    numVotes[index := (if index in numVotes then numVotes[index] else 0) + 1]
  }

  lemma CountOne(votes: map<Address, nat>, rest: set<Address>, numVotes: map<nat, nat>, a: Address)
    requires Counted(votes, rest, numVotes) && a in rest && a in votes
    ensures Counted(votes, rest - {a}, Increment(numVotes, votes[a]))
  {
    forall i: nat
      ensures CountedAt(votes, rest - {a}, Increment(numVotes, votes[a]), i)
    {
      CountOneAt(votes, rest, numVotes, a, i);
    }
  }

  lemma CountOneAt(votes: map<Address, nat>, rest: set<Address>, numVotes: map<nat, nat>, a: Address, i: nat)
    requires CountedAt(votes, rest, numVotes, i) && a in rest && a in votes
    ensures CountedAt(votes, rest - {a}, Increment(numVotes, votes[a]), i)
  {
    if i == votes[a] {
      assert Seen(votes, rest - {a}, i) == Seen(votes, rest, i) + {a};
    } else {
      assert Seen(votes, rest - {a}, i) == Seen(votes, rest, i);
    }
  }

  lemma AllCounted(votes: map<Address, nat>, numVotes: map<nat, nat>, i: nat)
    requires Counted(votes, {}, numVotes)
    ensures i in numVotes <==> Voters(votes, i) != {}
    ensures i in numVotes ==> numVotes[i] == |Voters(votes, i)|
  {
    assert CountedAt(votes, {}, numVotes, i);
    assert Seen(votes, {}, i) == Voters(votes, i);
  }

  /** Counting ends with some index that has enough votes, whichever comes first in the
      order of the maps, or with none. */
  method OutcomeIndex(votes: map<Address, nat>, required: int) returns (r: Option<nat>)
    ensures PossibleOutcome(votes, required, r)
  {
    var numVotes: map<nat, nat> := map[];
    var rest := votes.Keys;
    while rest != {}
      invariant rest <= votes.Keys && Counted(votes, rest, numVotes)
      decreases rest
    {
      var a :| a in rest;
      CountOne(votes, rest, numVotes, a);
      numVotes := Increment(numVotes, votes[a]);
      rest := rest - {a};
    }
    var open := numVotes.Keys;
    while open != {}
      invariant open <= numVotes.Keys
      invariant forall i :: i in numVotes && i !in open ==> numVotes[i] < required
      decreases open
    {
      var index :| index in open;
      open := open - {index};
      if numVotes[index] >= required {
        AllCounted(votes, numVotes, index);
        return Some(index);
      }
    }
    forall i: nat
      ensures !Wins(votes, i, required)
    {
      AllCounted(votes, numVotes, i);
    }
    return None;
  }

  // ----- voting

  /** The first position of a candidate, or the next free one. */
  function Place<C(==)>(candidates: seq<C>, c: C): (i: nat)
    ensures i <= |candidates|
    ensures i < |candidates| ==> candidates[i] == c
    ensures forall k :: 0 <= k < i ==> candidates[k] != c
  {
    if candidates == [] || candidates[0] == c then 0 else 1 + Place(candidates[1..], c)
  }

  function Voted<C(==)>(p: Poll<C>, sender: Address, c: C): Poll<C> {
    var i := Place(p.candidates, c);
    Poll(p.votes[sender := i], if i < |p.candidates| then p.candidates else p.candidates + [c])
  }

  /** A vote may replace an earlier one. */
  method AddEonStartVote(p: Poll<uint64>, sender: Address, batchIndex: uint64) returns (p': Poll<uint64>)
    ensures p' == Voted(p, sender, batchIndex)
  {
    var i := 0;
    while i < |p.candidates|
      invariant i <= |p.candidates| && forall k :: 0 <= k < i ==> p.candidates[k] != batchIndex
    {
      if p.candidates[i] == batchIndex {
        return p.(votes := p.votes[sender := i]);
      }
      i := i + 1;
    }
    return Poll(p.votes[sender := |p.candidates|], p.candidates + [batchIndex]);
  }

  /** Each voter votes once. */
  method AddConfigVote<C(==)>(p: Poll<C>, sender: Address, c: C) returns (p': Poll<C>, err: Option<string>)
    ensures err.Some? <==> sender in p.votes
    ensures p' == if err.Some? then p else Voted(p, sender, c)
  {
    if sender in p.votes {
      return p, Some("sender already voted");
    }
    var i := 0;
    while i < |p.candidates|
      invariant i <= |p.candidates| && forall k :: 0 <= k < i ==> p.candidates[k] != c
    {
      if p.candidates[i] == c {
        return p.(votes := p.votes[sender := i]), None;
      }
      i := i + 1;
    }
    return Poll(p.votes[sender := |p.candidates|], p.candidates + [c]), None;
  }

  // ----- determinism

  /** Between votes: votes are for candidates, candidates are distinct, and none has
      its threshold. */
  ghost predicate Open<C>(p: Poll<C>, required: int) {
    && (forall a :: a in p.votes ==> p.votes[a] < |p.candidates|)
    && (forall i, j :: 0 <= i < j < |p.candidates| ==> p.candidates[i] != p.candidates[j])
    && (forall i: nat :: !Wins(p.votes, i, required))
  }

  lemma VotersAfter(votes: map<Address, nat>, sender: Address, j: nat, i: nat)
    ensures i != j ==> Voters(votes[sender := j], i) == Voters(votes, i) - {sender}
    ensures Voters(votes[sender := j], j) == Voters(votes, j) + {sender}
  {
  }

  lemma FewerVoters(votes: map<Address, nat>, sender: Address, j: nat, i: nat, required: int)
    requires i != j && !Wins(votes, i, required)
    ensures !Wins(votes[sender := j], i, required)
  {
    VotersAfter(votes, sender, j, i);
    if Voters(votes, i) - {sender} != {} && sender in Voters(votes, i) {
      assert |Voters(votes, i)| == |Voters(votes, i) - {sender}| + 1;
    } else if Voters(votes, i) - {sender} != {} {
      assert Voters(votes, i) - {sender} == Voters(votes, i);
    }
  }

  /** Only the candidate just voted for can win, whatever the order of counting and
      even if the vote replaces an earlier one. */
  lemma OnlyVotedCanWin<C>(p: Poll<C>, sender: Address, c: C, required: int, i: nat)
    requires Open(p, required) && Wins(Voted(p, sender, c).votes, i, required)
    ensures i == Place(p.candidates, c)
    ensures i < |Voted(p, sender, c).candidates| && Voted(p, sender, c).candidates[i] == c
  {
    var j := Place(p.candidates, c);
    if i != j {
      FewerVoters(p.votes, sender, j, i, required);
    }
  }

  /** What counting may return. */
  ghost predicate PossibleOutcome(votes: map<Address, nat>, required: int, r: Option<nat>) {
    && (r.Some? ==> Wins(votes, r.value, required))
    && (r.None? ==> forall i: nat :: !Wins(votes, i, required))
  }

  /** The outcome after a vote does not depend on the order of the maps. */
  lemma OutcomeDetermined<C>(p: Poll<C>, sender: Address, c: C, required: int, r: Option<nat>)
    requires Open(p, required) && PossibleOutcome(Voted(p, sender, c).votes, required, r)
    ensures var j := Place(p.candidates, c);
      r == if Wins(Voted(p, sender, c).votes, j, required) then Some(j) else None
  {
    if r.Some? {
      OnlyVotedCanWin(p, sender, c, required, r.value);
    }
  }

  /** If nobody wins the poll stays open. */
  lemma StaysOpen<C>(p: Poll<C>, sender: Address, c: C, required: int)
    requires Open(p, required) && forall i: nat :: !Wins(Voted(p, sender, c).votes, i, required)
    ensures Open(Voted(p, sender, c), required)
  {
  }
}
