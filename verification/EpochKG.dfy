/** Epoch key generation: collecting verified secret key shares until the
    threshold is reached, and combining them. */
module EpochKeyGeneration {
  import opened Widths
  import opened Modular
  import opened Outcome
  import opened Groups
  import opened Feldman
  import opened Lagrange
  import opened Keys
  import opened DistributedKeyGeneration

  datatype Share = Share(epoch: nat, sender: nat, share: G1)

  /** The shares collected per epoch, and the finished keys. A key is missing
      (`None`) if combining the shares failed. */
  datatype Collected = Collected(secretShares: map<nat, seq<Share>>, secretKeys: map<nat, Option<G1>>)

  const EMPTY := Collected(map[], map[])

  function Senders(shares: seq<Share>): (r: seq<int>)
    ensures |r| == |shares| && forall i :: 0 <= i < |r| ==> r[i] == shares[i].sender
  {
    seq(|shares|, i requires 0 <= i < |shares| => shares[i].sender)
  }

  function Values(shares: seq<Share>): (r: seq<G1>)
    ensures |r| == |shares| && forall i :: 0 <= i < |r| ==> r[i] == shares[i].share
  {
    seq(|shares|, i requires 0 <= i < |shares| => shares[i].share)
  }

  /** The key the shares combine to; an error unless there are `threshold` many. */
  function CombinedShares(q: int, threshold: nat, shares: seq<Share>): Option<G1>
    requires q >= 2
  {
    if |shares| == threshold
    then Some(Combined(q, Senders(shares), Senders(shares), Values(shares)) % q)
    else None
  }

  predicate Accepted(q: int, r: DKGResult, share: Share)
    requires q > 0 && share.sender < |r.publicKeyShares|
  {
    VerifyEpochSecretKeyShare(q, share.share, r.publicKeyShares[share.sender], ComputeEpochID(q, share.epoch))
  }

  function Pending(s: Collected, epoch: nat): seq<Share> {
    if epoch in s.secretShares then s.secretShares[epoch] else []
  }

  predicate HasSender(shares: seq<Share>, sender: nat) {
    exists i :: 0 <= i < |shares| && shares[i].sender == sender
  }

  function AddShare(q: int, r: DKGResult, s: Collected, share: Share): Collected
    requires q >= 2
  {
    var shares := Pending(s, share.epoch);
    if HasSender(shares, share.sender) then s
    else
      var all := shares + [share];
      if |all| != r.threshold then s.(secretShares := s.secretShares[share.epoch := all])
      else Collected(s.secretShares - {share.epoch},
                 s.secretKeys[share.epoch := CombinedShares(q, r.threshold, all)])
  }

  /** The effect of one incoming share. */
  function Handle(q: int, r: DKGResult, s: Collected, share: Share): Collected
    requires q >= 2 && share.sender < |r.publicKeyShares|
  {
    if share.epoch in s.secretKeys || !Accepted(q, r, share) then s else AddShare(q, r, s, share)
  }

  ghost predicate KnownSenders(r: DKGResult, input: seq<Share>) {
    forall i :: 0 <= i < |input| ==> input[i].sender < |r.publicKeyShares|
  }

  /** The state after a sequence of incoming shares. */
  function Run(q: int, r: DKGResult, input: seq<Share>): Collected
    requires q >= 2 && KnownSenders(r, input)
  {
    if input == [] then EMPTY
    else var n := |input| - 1; Handle(q, r, Run(q, r, input[..n]), input[n])
  }

  // ----- the invariant

  /** The distributed key this state belongs to. */
  ghost predicate Keyed(q: int, F: Polynomial, r: DKGResult) {
    && Prime(q) && SharesOf(q, F, r)
    && r.threshold >= 1 && r.numKeypers < q
  }

  /** The epoch secret key: the epoch id times the joint secret. */
  function EpochSecretKey(q: int, F: Polynomial, epoch: nat): G1
    requires q > 0
  {
    (ComputeEpochID(q, epoch) * PolyValue(F, 0)) % q
  }

  /** Verified shares of one epoch by distinct keypers. */
  ghost predicate GoodShares(q: int, F: Polynomial, r: DKGResult, epoch: nat, shares: seq<Share>)
    requires q > 0
  {
    && (forall i :: 0 <= i < |shares| ==>
          && shares[i].epoch == epoch && shares[i].sender < r.numKeypers
          && CorrectShare(q, F, ComputeEpochID(q, epoch), shares[i].sender, shares[i].share))
    && (forall i, j :: 0 <= i < j < |shares| ==> shares[i].sender != shares[j].sender)
  }

  ghost predicate Inv(q: int, F: Polynomial, r: DKGResult, s: Collected)
    requires q > 0
  {
    && (forall e :: e in s.secretShares ==>
          GoodShares(q, F, r, e, s.secretShares[e]) && |s.secretShares[e]| < r.threshold)
    && (forall e :: e in s.secretKeys ==> s.secretKeys[e] == Some(EpochSecretKey(q, F, e)))
    && s.secretShares.Keys !! s.secretKeys.Keys
  }

  /** The pairing check accepts exactly the correct shares. */
  lemma AcceptedExact(q: int, F: Polynomial, r: DKGResult, share: Share)
    requires Keyed(q, F, r) && share.sender < |r.publicKeyShares|
    ensures Accepted(q, r, share) <==>
      CorrectShare(q, F, ComputeEpochID(q, share.epoch), share.sender, share.share)
  {
    var id, pk, v := ComputeEpochID(q, share.epoch), r.publicKeyShares[share.sender], PolyValue(F, KeyperX(share.sender));
    VerifyShareExact(q, share.share, pk, id);
    CongMod(q, v);
    CongScale(q, pk, v, id);
    CongSym(q, id * pk, id * v);
    if Cong(q, share.share, id * pk) { CongTrans(q, share.share, id * pk, id * v); }
    if Cong(q, share.share, id * v) { CongTrans(q, share.share, id * v, id * pk); }
  }

  /** Threshold many verified shares combine to the epoch secret key. */
  lemma GoodSharesCombine(q: int, F: Polynomial, r: DKGResult, epoch: nat, shares: seq<Share>)
    requires Keyed(q, F, r) && GoodShares(q, F, r, epoch, shares) && |shares| == r.threshold
    ensures CombinedShares(q, r.threshold, shares) == Some(EpochSecretKey(q, F, epoch))
  {
    CombinedKey(q, F, ComputeEpochID(q, epoch), Senders(shares), Values(shares));
  }

  lemma HandleKeepsInv(q: int, F: Polynomial, r: DKGResult, s: Collected, share: Share)
    requires Keyed(q, F, r) && Inv(q, F, r, s) && share.sender < |r.publicKeyShares|
    ensures Inv(q, F, r, Handle(q, r, s, share))
  {
    var e, shares := share.epoch, Pending(s, share.epoch);
    if e !in s.secretKeys && Accepted(q, r, share) && !HasSender(shares, share.sender) {
      AcceptedExact(q, F, r, share);
      var all := shares + [share];
      assert GoodShares(q, F, r, e, all);
      if |all| == r.threshold {
        GoodSharesCombine(q, F, r, e, all);
      }
    }
  }

  /** What holds after every sequence of shares -- wrong ones, duplicates, any
      order: pending shares are verified, from distinct senders and fewer than the
      threshold; no epoch is both pending and finished; and every stored key is
      the epoch id times the joint secret, so the error case never stores one. */
  lemma {:induction false} RunKeepsInv(q: int, F: Polynomial, r: DKGResult, input: seq<Share>)
    requires Keyed(q, F, r) && KnownSenders(r, input)
    ensures Inv(q, F, r, Run(q, r, input))
  {
    if input != [] {
      var n := |input| - 1;
      RunKeepsInv(q, F, r, input[..n]);
      HandleKeepsInv(q, F, r, Run(q, r, input[..n]), input[n]);
    }
  }

  // ----- when the key exists

  /** The keypers that sent a correct share for the epoch. */
  ghost function Contributors(q: int, r: DKGResult, input: seq<Share>, epoch: nat): set<nat>
    requires q >= 2 && KnownSenders(r, input)
  {
    set i | 0 <= i < |input| && input[i].epoch == epoch && Accepted(q, r, input[i]) :: input[i].sender
  }

  ghost function SenderSet(shares: seq<Share>): set<nat> {
    set i | 0 <= i < |shares| :: shares[i].sender
  }

  lemma {:induction false} SenderSetSize(shares: seq<Share>)
    requires forall i, j :: 0 <= i < j < |shares| ==> shares[i].sender != shares[j].sender
    ensures |SenderSet(shares)| == |shares|
  {
    if shares != [] {
      var n := |shares| - 1;
      SenderSetSize(shares[..n]);
      assert SenderSet(shares) == SenderSet(shares[..n]) + {shares[n].sender};
    }
  }

  /** Finished epochs have at least threshold many contributors; of all others,
      every contributor's share is pending. */
  ghost predicate Progress(q: int, r: DKGResult, input: seq<Share>, epoch: nat)
    requires q >= 2 && KnownSenders(r, input)
  {
    var s, c := Run(q, r, input), Contributors(q, r, input, epoch);
    if epoch in s.secretKeys then |c| >= r.threshold else SenderSet(Pending(s, epoch)) == c
  }

  lemma ContributorsStep(q: int, r: DKGResult, input: seq<Share>, epoch: nat)
    requires q >= 2 && KnownSenders(r, input) && input != []
    ensures var n := |input| - 1;
      Contributors(q, r, input, epoch) ==
        Contributors(q, r, input[..n], epoch)
        + if input[n].epoch == epoch && Accepted(q, r, input[n]) then {input[n].sender} else {}
  {
    var n := |input| - 1;
    var c, c' := Contributors(q, r, input[..n], epoch), Contributors(q, r, input, epoch);
    assert forall i :: 0 <= i < n ==> input[..n][i] == input[i];
    forall x | x in c
      ensures x in c'
    {
      var i :| 0 <= i < n && input[..n][i].epoch == epoch && Accepted(q, r, input[..n][i]) && input[..n][i].sender == x;
      assert input[i] == input[..n][i];
    }
    forall x | x in c'
      ensures x in c || (input[n].epoch == epoch && Accepted(q, r, input[n]) && x == input[n].sender)
    {
      var i :| 0 <= i <= n && input[i].epoch == epoch && Accepted(q, r, input[i]) && input[i].sender == x;
      assert i == n || input[..n][i] == input[i];
    }
  }

  lemma {:induction false} RunProgress(q: int, F: Polynomial, r: DKGResult, input: seq<Share>, epoch: nat)
    requires Keyed(q, F, r) && KnownSenders(r, input)
    ensures Progress(q, r, input, epoch)
  {
    if input != [] {
      var n := |input| - 1;
      RunProgress(q, F, r, input[..n], epoch);
      RunKeepsInv(q, F, r, input[..n]);
      ContributorsStep(q, r, input, epoch);
      ProgressStep(q, F, r, Run(q, r, input[..n]), input[n], epoch,
                   Contributors(q, r, input[..n], epoch), Contributors(q, r, input, epoch));
    }
  }

  lemma ProgressStep(q: int, F: Polynomial, r: DKGResult, s: Collected, share: Share, epoch: nat, c: set<nat>, c': set<nat>)
    requires Keyed(q, F, r) && Inv(q, F, r, s) && share.sender < |r.publicKeyShares|
    requires if epoch in s.secretKeys then |c| >= r.threshold else SenderSet(Pending(s, epoch)) == c
    requires c' == c + if share.epoch == epoch && Accepted(q, r, share) then {share.sender} else {}
    ensures var s' := Handle(q, r, s, share);
      if epoch in s'.secretKeys then |c'| >= r.threshold else SenderSet(Pending(s', epoch)) == c'
  {
    if epoch in s.secretKeys {
      assert c' == c + (c' - c);
    } else if share.epoch == epoch && Accepted(q, r, share) {
      PendingStep(Pending(s, epoch), share, c, c');
    }
  }

  lemma PendingStep(shares: seq<Share>, share: Share, c: set<nat>, c': set<nat>)
    requires SenderSet(shares) == c && c' == c + {share.sender}
    requires forall i, j :: 0 <= i < j < |shares| ==> shares[i].sender != shares[j].sender
    ensures HasSender(shares, share.sender) ==> c' == c
    ensures !HasSender(shares, share.sender) ==>
      SenderSet(shares + [share]) == c' && |c'| == |shares + [share]|
  {
    var all := shares + [share];
    assert forall i :: 0 <= i < |shares| ==> all[i] == shares[i];
    assert all[|shares|] == share;
    if !HasSender(shares, share.sender) {
      assert SenderSet(all) == c';
      SenderSetSize(all);
    }
  }

  /** A key is stored exactly when at least threshold many different keypers have
      sent a correct share, and it is the epoch id times the joint secret. */
  lemma KeyExactlyWhenEnough(q: int, F: Polynomial, r: DKGResult, input: seq<Share>, epoch: nat)
    requires Keyed(q, F, r) && KnownSenders(r, input)
    ensures epoch in Run(q, r, input).secretKeys <==> |Contributors(q, r, input, epoch)| >= r.threshold
    ensures epoch in Run(q, r, input).secretKeys ==>
      Run(q, r, input).secretKeys[epoch] == Some(EpochSecretKey(q, F, epoch))
  {
    RunProgress(q, F, r, input, epoch);
    RunKeepsInv(q, F, r, input);
    var s := Run(q, r, input);
    SenderSetSize(Pending(s, epoch));
  }

  lemma SameContributors(q: int, r: DKGResult, a: seq<Share>, b: seq<Share>, epoch: nat)
    requires q >= 2 && KnownSenders(r, a) && KnownSenders(r, b)
    requires forall x :: x in a <==> x in b
    ensures Contributors(q, r, a, epoch) == Contributors(q, r, b, epoch)
  {
    ContributorsSubset(q, r, a, b, epoch);
    ContributorsSubset(q, r, b, a, epoch);
  }

  lemma ContributorsSubset(q: int, r: DKGResult, a: seq<Share>, b: seq<Share>, epoch: nat)
    requires q >= 2 && KnownSenders(r, a) && KnownSenders(r, b)
    requires forall x :: x in a ==> x in b
    ensures Contributors(q, r, a, epoch) <= Contributors(q, r, b, epoch)
  {
    forall x | x in Contributors(q, r, a, epoch)
      ensures x in Contributors(q, r, b, epoch)
    {
      var i :| 0 <= i < |a| && a[i].epoch == epoch && Accepted(q, r, a[i]) && a[i].sender == x;
      assert a[i] in b;
      var j :| 0 <= j < |b| && b[j] == a[i];
    }
  }

  /** Order and multiplicity of the incoming shares do not matter: inputs with the
      same shares finish the same epochs with the same keys. */
  lemma OrderIndependent(q: int, F: Polynomial, r: DKGResult, a: seq<Share>, b: seq<Share>)
    requires Keyed(q, F, r) && KnownSenders(r, a) && KnownSenders(r, b)
    requires forall x :: x in a <==> x in b
    ensures Run(q, r, a).secretKeys == Run(q, r, b).secretKeys
  {
    var ka, kb := Run(q, r, a).secretKeys, Run(q, r, b).secretKeys;
    forall e: nat
      ensures e in ka <==> e in kb
      ensures e in ka ==> ka[e] == kb[e]
    {
      SameContributors(q, r, a, b, e);
      KeyExactlyWhenEnough(q, F, r, a, e);
      KeyExactlyWhenEnough(q, F, r, b, e);
    }
  }

  // ----- epochs are kept apart

  lemma DifferentRemainders(q: int, a: int, b: int)
    requires q > 0 && !Cong(q, a, b)
    ensures a % q != b % q
  {
    CongMod(q, a);
    CongMod(q, b);
    if a % q == b % q {
      CongSym(q, b % q, b);
      CongSym(q, a % q, a);
      CongTrans(q, a, a % q, b);
    }
  }

  /** Different epochs have different keys, and none has the key 0, unless the joint secret
      is 0. */
  lemma EpochKeysDiffer(q: int, F: Polynomial, e: nat, e': nat)
    requires Prime(q) && q > TWO_64 && e + 1 < TWO_64 && e' + 1 < TWO_64 && e != e'
    requires !Cong(q, PolyValue(F, 0), 0)
    ensures EpochSecretKey(q, F, e) != EpochSecretKey(q, F, e')
    ensures EpochSecretKey(q, F, e) != 0
  {
    var v := PolyValue(F, 0);
    EpochIDsDiffer(q, e, e', v);
    DifferentRemainders(q, ComputeEpochID(q, e) * v, ComputeEpochID(q, e') * v);
    DifferentRemainders(q, ComputeEpochID(q, e) * v, 0);
  }

  /** A share that is accepted for one epoch is accepted for no other, unless the sender's
      secret share is 0. */
  lemma SharesOfOneEpoch(q: int, F: Polynomial, r: DKGResult, share: Share, epoch: nat)
    requires Keyed(q, F, r) && share.sender < |r.publicKeyShares| && q > TWO_64
    requires share.epoch + 1 < TWO_64 && epoch + 1 < TWO_64 && share.epoch != epoch
    requires !Cong(q, PolyValue(F, KeyperX(share.sender)), 0)
    ensures Accepted(q, r, share) ==> !Accepted(q, r, share.(epoch := epoch))
  {
    var v, id, id' := PolyValue(F, KeyperX(share.sender)), ComputeEpochID(q, share.epoch), ComputeEpochID(q, epoch);
    AcceptedExact(q, F, r, share);
    AcceptedExact(q, F, r, share.(epoch := epoch));
    EpochIDsDiffer(q, share.epoch, epoch, v);
    if Cong(q, share.share, id * v) && Cong(q, share.share, id' * v) {
      CongSym(q, share.share, id * v);
      CongTrans(q, id * v, share.share, id' * v);
    }
  }

  // ----- the object

  class EpochKG {
    const q: int
    const result: DKGResult
    var secretShares: map<nat, seq<Share>>
    var secretKeys: map<nat, Option<G1>>

    ghost function View(): Collected
      reads this
    {
      Collected(secretShares, secretKeys)
    }

    constructor (q: int, result: DKGResult)
      requires q >= 2
      ensures this.q == q && this.result == result && View() == EMPTY
    {
      this.q := q;
      this.result := result;
      secretShares := map[];
      secretKeys := map[];
    }

    /** This keyper's own share for an epoch is one the others accept. */
    method ComputeShare(epoch: nat) returns (share: G1)
      requires q >= 2
      ensures forall F :: Keyed(q, F, result) ==>
        CorrectShare(q, F, ComputeEpochID(q, epoch), result.keyper, share)
    {
      share := ComputeEpochSecretKeyShare(q, result.secretKeyShare, ComputeEpochID(q, epoch));
      forall F | Keyed(q, F, result)
        ensures CorrectShare(q, F, ComputeEpochID(q, epoch), result.keyper, share)
      {
        OwnShareCorrect(q, ComputeEpochID(q, epoch), result.secretKeyShare, PolyValue(F, KeyperX(result.keyper)));
      }
    }

    method ComputeEpochSecretKeyOf(shares: seq<Share>) returns (r: Option<G1>)
      requires q >= 2
      ensures r == CombinedShares(q, result.threshold, shares)
    {
      var keyperIndices: seq<int> := [];
      var values: seq<G1> := [];
      for i := 0 to |shares|
        invariant keyperIndices == Senders(shares)[..i] && values == Values(shares)[..i]
      {
        keyperIndices := keyperIndices + [shares[i].sender];
        values := values + [shares[i].share];
      }
      assert Senders(shares)[..|shares|] == Senders(shares) && Values(shares)[..|shares|] == Values(shares);
      var key := ComputeEpochSecretKey(q, keyperIndices, values, result.threshold);
      r := if key.Ok? then Some(key.value) else None;
    }

    /** An error exactly for a second share of the same sender. */
    method AddEpochSecretKeyShare(share: Share) returns (ok: bool)
      requires q >= 2
      modifies this
      ensures View() == AddShare(q, result, old(View()), share)
      ensures ok <==> !HasSender(Pending(old(View()), share.epoch), share.sender)
    {
      var shares := if share.epoch in secretShares then secretShares[share.epoch] else [];
      for i := 0 to |shares|
        invariant forall j :: 0 <= j < i ==> shares[j].sender != share.sender
      {
        if shares[i].sender == share.sender {
          return false;
        }
      }
      shares := shares + [share];
      if |shares| != result.threshold {
        secretShares := secretShares[share.epoch := shares];
        return true;
      }
      var secretKey := ComputeEpochSecretKeyOf(shares);
      secretShares := secretShares - {share.epoch};
      secretKeys := secretKeys[share.epoch := secretKey];
      return secretKey.Some?;
    }

    /** No error exactly if the epoch has its key, or the share is right and the first of
        its sender. */
    method HandleEpochSecretKeyShare(share: Share) returns (ok: bool)
      requires q >= 2 && share.sender < |result.publicKeyShares|
      modifies this
      ensures View() == Handle(q, result, old(View()), share)
      ensures ok <==>
        (share.epoch in old(secretKeys)
         || (Accepted(q, result, share) && !HasSender(Pending(old(View()), share.epoch), share.sender)))
    {
      if share.epoch in secretKeys {
        return true;
      }
      var epochID := ComputeEpochID(q, share.epoch);
      if !VerifyEpochSecretKeyShare(q, share.share, result.publicKeyShares[share.sender], epochID) {
        return false;
      }
      ok := AddEpochSecretKeyShare(share);
    }
  }

  lemma OwnShareCorrect(q: int, id: G1, sk: int, v: int)
    requires q > 0 && sk == v % q
    ensures Cong(q, ScalarMult(q, id, sk), id * v)
  {
    CongMod(q, v);
    CongScale(q, sk, v, id);
    CongMod(q, id * sk);
    CongTrans(q, ScalarMult(q, id, sk), id * sk, id * v);
  }
}
