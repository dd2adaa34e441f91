/** Sending the secret evaluations of a DKG. A message can only go out once its receiver's
    encryption key is known; until the end of dealing the others wait. */
module Outboxes {
  import opened Addresses
  import opened DistributedKeyGeneration

  ghost predicate KnownReceivers(keypers: seq<Address>, msgs: seq<PolyEvalMsg>) {
    forall i :: 0 <= i < |msgs| ==> msgs[i].receiver < |keypers|
  }

  /** The receiver's encryption key is known. */
  predicate Reachable(keypers: seq<Address>, keys: set<Address>, msg: PolyEvalMsg) {
    msg.receiver < |keypers| && keypers[msg.receiver] in keys
  }

  /** The messages that can be sent, in order. */
  ghost function Sendable(keypers: seq<Address>, keys: set<Address>, msgs: seq<PolyEvalMsg>): seq<PolyEvalMsg> {
    if msgs == [] then []
    else
      var n := |msgs| - 1;
      Sendable(keypers, keys, msgs[..n]) + if Reachable(keypers, keys, msgs[n]) then [msgs[n]] else []
  }

  /** The messages that must wait, in order. */
  ghost function Waiting(keypers: seq<Address>, keys: set<Address>, msgs: seq<PolyEvalMsg>): seq<PolyEvalMsg> {
    if msgs == [] then []
    else
      var n := |msgs| - 1;
      Waiting(keypers, keys, msgs[..n]) + if Reachable(keypers, keys, msgs[n]) then [] else [msgs[n]]
  }

  /** The parts make up the whole. */
  ghost predicate Parts(a: seq<PolyEvalMsg>, b: seq<PolyEvalMsg>, all: seq<PolyEvalMsg>) {
    multiset(a) + multiset(b) == multiset(all)
  }

  lemma PartsGrow(a: seq<PolyEvalMsg>, b: seq<PolyEvalMsg>, all: seq<PolyEvalMsg>, x: PolyEvalMsg)
    requires Parts(a, b, all)
    ensures Parts(a + [x], b, all + [x]) && Parts(a, b + [x], all + [x])
  {
  }

  lemma PartsOfParts(a: seq<PolyEvalMsg>, b: seq<PolyEvalMsg>, all: seq<PolyEvalMsg>, c: seq<PolyEvalMsg>, d: seq<PolyEvalMsg>)
    requires Parts(a, b, all) && Parts(c, d, b)
    ensures Parts(a + c, d, all)
  {
  }

  lemma {:induction false} SendableAndWaiting(keypers: seq<Address>, keys: set<Address>, msgs: seq<PolyEvalMsg>)
    ensures Parts(Sendable(keypers, keys, msgs), Waiting(keypers, keys, msgs), msgs)
  {
    if msgs != [] {
      var n := |msgs| - 1;
      SendableAndWaiting(keypers, keys, msgs[..n]);
      assert msgs == msgs[..n] + [msgs[n]];
      PartsGrow(Sendable(keypers, keys, msgs[..n]), Waiting(keypers, keys, msgs[..n]), msgs[..n], msgs[n]);
    }
  }

  /** If nothing can be sent, everything waits. */
  lemma {:induction false} NothingSendable(keypers: seq<Address>, keys: set<Address>, msgs: seq<PolyEvalMsg>)
    requires Sendable(keypers, keys, msgs) == []
    ensures Waiting(keypers, keys, msgs) == msgs
  {
    if msgs != [] {
      NothingSendable(keypers, keys, msgs[..|msgs| - 1]);
    }
  }

  /** What waits was there before and cannot be sent. */
  lemma {:induction false} WaitingAmong(keypers: seq<Address>, keys: set<Address>, msgs: seq<PolyEvalMsg>, m: PolyEvalMsg)
    requires m in Waiting(keypers, keys, msgs)
    ensures m in msgs && !Reachable(keypers, keys, m)
  {
    var n := |msgs| - 1;
    if m in Waiting(keypers, keys, msgs[..n]) {
      WaitingAmong(keypers, keys, msgs[..n], m);
    }
  }

  /** The messages of one DKG that wait to be sent. */
  class Outbox {
    const keypers: seq<Address>
    var outgoing: seq<PolyEvalMsg>

    constructor (keypers: seq<Address>, msgs: seq<PolyEvalMsg>)
      ensures this.keypers == keypers && outgoing == msgs
    {
      this.keypers := keypers;
      outgoing := msgs;
    }

    /** While dealing, sends what can be sent and keeps the rest; later it is too late and
        the rest is dropped. */
    method SendPolyEvals(phase: Phase, keys: set<Address>) returns (sent: seq<PolyEvalMsg>)
      requires KnownReceivers(keypers, outgoing)
      modifies this`outgoing
      ensures Rank(phase) > Rank(Dealing) ==> sent == [] && outgoing == []
      ensures Rank(phase) <= Rank(Dealing) ==>
        sent == Sendable(keypers, keys, old(outgoing)) && outgoing == Waiting(keypers, keys, old(outgoing))
    {
      if |outgoing| == 0 {
        return [];
      }
      if Rank(phase) > Rank(Dealing) {
        outgoing := [];
        return [];
      }
      var newOutgoing;
      sent, newOutgoing := Sort(keys);
      if |sent| > 0 {
        outgoing := newOutgoing;
      } else {
        NothingSendable(keypers, keys, outgoing);
      }
    }

    /** The loop over the messages. */
    method Sort(keys: set<Address>) returns (sent: seq<PolyEvalMsg>, newOutgoing: seq<PolyEvalMsg>)
      requires KnownReceivers(keypers, outgoing)
      ensures sent == Sendable(keypers, keys, outgoing) && newOutgoing == Waiting(keypers, keys, outgoing)
    {
      sent, newOutgoing := [], [];
      for i := 0 to |outgoing|
        invariant sent == Sendable(keypers, keys, outgoing[..i])
        invariant newOutgoing == Waiting(keypers, keys, outgoing[..i])
      {
        assert outgoing[..i + 1][..i] == outgoing[..i];
        if keypers[outgoing[i].receiver] in keys {
          sent := sent + [outgoing[i]];
        } else {
          newOutgoing := newOutgoing + [outgoing[i]];
        }
      }
      assert outgoing[..|outgoing|] == outgoing;
    }
  }

  /** What has been sent and what still waits after the steps of the dealing phase, with
      the keys known at each. */
  ghost function Sent(keypers: seq<Address>, msgs: seq<PolyEvalMsg>, known: seq<set<Address>>): seq<PolyEvalMsg> {
    if known == [] then []
    else
      var n := |known| - 1;
      Sent(keypers, msgs, known[..n]) + Sendable(keypers, known[n], Left(keypers, msgs, known[..n]))
  }

  ghost function Left(keypers: seq<Address>, msgs: seq<PolyEvalMsg>, known: seq<set<Address>>): seq<PolyEvalMsg> {
    if known == [] then msgs
    else
      var n := |known| - 1;
      Waiting(keypers, known[n], Left(keypers, msgs, known[..n]))
  }

  /** Over all steps of the dealing phase every evaluation is sent once or still waits. */
  lemma {:induction false} EvalsConserved(keypers: seq<Address>, msgs: seq<PolyEvalMsg>, known: seq<set<Address>>)
    ensures Parts(Sent(keypers, msgs, known), Left(keypers, msgs, known), msgs)
  {
    if known != [] {
      var n := |known| - 1;
      var sent, left := Sent(keypers, msgs, known[..n]), Left(keypers, msgs, known[..n]);
      EvalsConserved(keypers, msgs, known[..n]);
      SendableAndWaiting(keypers, known[n], left);
      PartsOfParts(sent, left, msgs, Sendable(keypers, known[n], left), Waiting(keypers, known[n], left));
    }
  }

  /** None waits whose receiver's key was known at some step. */
  lemma {:induction false} NoneWaitsInVain(keypers: seq<Address>, msgs: seq<PolyEvalMsg>, known: seq<set<Address>>,
                                           m: PolyEvalMsg, k: nat)
    requires m in Left(keypers, msgs, known) && k < |known|
    ensures !Reachable(keypers, known[k], m)
  {
    var n := |known| - 1;
    WaitingAmong(keypers, known[n], Left(keypers, msgs, known[..n]), m);
    if k < n {
      NoneWaitsInVain(keypers, msgs, known[..n], m, k);
    }
  }
}
