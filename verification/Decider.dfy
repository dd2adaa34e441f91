/** The keyper's step on a DKG object, as it is run. */
module Decider {
  import opened Addresses
  import opened Outcome
  import opened Feldman
  import opened Groups
  import opened Observe
  import opened DistributedKeyGeneration
  import opened KeyperSync
  import Encryption

  method SyncCommitments(env: Env, pure: PureDKG, events: seq<At<CommitmentMsg>>, syncHeight: int)
    requires pure.Valid() && pure.numKeypers == |env.keypers| && Sorted(events)
    modifies pure`commitments
    ensures pure.Valid() && pure.View() == Commitments(env, old(pure.View()), From(events, syncHeight))
  {
    var list := Get(events, syncHeight);
    for i := 0 to |list|
      invariant pure.Valid() && pure.View() == Commitments(env, old(pure.View()), list[..i])
    {
      assert list[..i + 1][..i] == list[..i];
      var comm := list[i];
      if env.PhaseOf(comm.height) != Dealing {
        continue;
      }
      var sender := FindIndex(env.keypers, comm.msg.sender);
      if sender.None? {
        continue;
      }
      var err := pure.HandlePolyCommitmentMsg(comm.msg.eon, sender.value, comm.msg.gammas);
    }
    assert list[..|list|] == list;
  }

  method SyncPolyEvals(env: Env, pure: PureDKG, events: seq<At<EvalMsg>>, syncHeight: int)
    requires pure.Valid() && pure.numKeypers == |env.keypers| && Sorted(events)
    modifies pure`evals
    ensures pure.Valid() && pure.View() == PolyEvals(env, old(pure.View()), From(events, syncHeight))
    ensures pure.evals[pure.keyper] == old(pure.evals[pure.keyper])
  {
    var list := Get(events, syncHeight);
    for i := 0 to |list|
      invariant pure.Valid() && pure.View() == PolyEvals(env, old(pure.View()), list[..i])
      invariant pure.evals[pure.keyper] == old(pure.evals[pure.keyper])
    {
      assert list[..i + 1][..i] == list[..i];
      var eval := list[i];
      if env.PhaseOf(eval.height) != Dealing {
        continue;
      }
      var sender := FindIndex(env.keypers, eval.msg.sender);
      if sender.None? {
        continue;
      }
      if sender.value == pure.keyper {
        continue;
      }
      ReadEvals(env, pure, eval.msg.eon, sender.value, eval.msg.evals);
    }
    assert list[..|list|] == list;
  }

  /** The loop over one message's receivers. */
  method ReadEvals(env: Env, pure: PureDKG, eon: nat, sender: nat, es: seq<(Address, Encryption.Bytes)>)
    requires pure.Valid() && pure.numKeypers == |env.keypers| && sender < pure.numKeypers && sender != pure.keyper
    modifies pure`evals
    ensures pure.Valid() && pure.View() == EvalList(env, old(pure.View()), eon, sender, es)
    ensures pure.evals[pure.keyper] == old(pure.evals[pure.keyper])
  {
    for j := 0 to |es|
      invariant pure.Valid() && pure.View() == EvalList(env, old(pure.View()), eon, sender, es[..j])
      invariant pure.evals[pure.keyper] == old(pure.evals[pure.keyper])
    {
      assert es[..j + 1][..j] == es[..j];
      var receiver := FindIndex(env.keypers, es[j].0);
      if receiver.None? {
        continue;
      }
      if receiver.value != pure.keyper {
        continue;
      }
      var plain := env.decrypt(es[j].1);
      if plain.None? {
        continue;
      }
      var err := pure.HandlePolyEvalMsg(eon, sender, pure.keyper, Encryption.SetBytes(plain.value));
    }
    assert es[..|es|] == es;
  }

  method SyncAccusations(env: Env, pure: PureDKG, events: seq<At<AccusationMsg>>, syncHeight: int)
    requires pure.Valid() && pure.numKeypers == |env.keypers| && Sorted(events)
    modifies pure`accusations
    ensures pure.Valid() && pure.View() == Accusations(env, old(pure.View()), From(events, syncHeight))
  {
    var list := Get(events, syncHeight);
    for i := 0 to |list|
      invariant pure.Valid() && pure.View() == Accusations(env, old(pure.View()), list[..i])
    {
      assert list[..i + 1][..i] == list[..i];
      var accusation := list[i];
      if env.PhaseOf(accusation.height) != Accusing {
        continue;
      }
      var sender := FindIndex(env.keypers, accusation.msg.sender);
      if sender.None? {
        continue;
      }
      var accused := accusation.msg.accused;
      ghost var before := pure.View();
      for j := 0 to |accused|
        invariant pure.Valid() && pure.View() == AccusationList(env, before, sender.value, accused[..j])
      {
        assert accused[..j + 1][..j] == accused[..j];
        var index := FindIndex(env.keypers, accused[j]);
        if index.None? {
          continue;
        }
        var err := pure.HandleAccusationMsg(pure.eon, AccusationKey(sender.value, index.value));
      }
      assert accused[..|accused|] == accused;
    }
    assert list[..|list|] == list;
  }

  method SyncApologies(env: Env, pure: PureDKG, events: seq<At<ApologyEvent>>, syncHeight: int)
    requires pure.Valid() && pure.numKeypers == |env.keypers| && Sorted(events)
    modifies pure`apologies
    ensures pure.Valid() && pure.View() == Apologies(env, old(pure.View()), From(events, syncHeight))
  {
    var list := Get(events, syncHeight);
    for i := 0 to |list|
      invariant pure.Valid() && pure.View() == Apologies(env, old(pure.View()), list[..i])
    {
      assert list[..i + 1][..i] == list[..i];
      var apology := list[i];
      if env.PhaseOf(apology.height) != Apologizing {
        continue;
      }
      var sender := FindIndex(env.keypers, apology.msg.sender);
      if sender.None? {
        continue;
      }
      var apologies := apology.msg.apologies;
      ghost var before := pure.View();
      for j := 0 to |apologies|
        invariant pure.Valid() && pure.View() == ApologyList(env, before, sender.value, apologies[..j])
      {
        assert apologies[..j + 1][..j] == apologies[..j];
        var index := FindIndex(env.keypers, apologies[j].0);
        if index.None? {
          continue;
        }
        var err := pure.HandleApologyMsg(pure.eon, AccusationKey(index.value, sender.value), apologies[j].1);
      }
      assert apologies[..|apologies|] == apologies;
    }
    assert list[..|list|] == list;
  }

  // ----- the step

  /** What the observer has of the eon agrees, above the sync height, with the chain
      up to the current block. */
  ghost predicate Knows(known: DKGEon, chain: DKGEon, syncHeight: int, current: int) {
    && known.SortedLists()
    && From(known.commitments, syncHeight) == Window(chain.commitments, syncHeight, current)
    && From(known.polyEvals, syncHeight) == Window(chain.polyEvals, syncHeight, current)
    && From(known.accusations, syncHeight) == Window(chain.accusations, syncHeight, current)
    && From(known.apologies, syncHeight) == Window(chain.apologies, syncHeight, current)
  }

  /** The object is between steps: it has dealt exactly if its phase says so. */
  ghost predicate Ready(env: Env, pure: PureDKG)
    reads pure
  {
    && Fits(env, pure.View()) && pure.Valid()
    && (pure.phase == Off ==> pure.evals[pure.keyper].None?)
    && (pure.phase != Off ==> pure.polynomial == Some(env.polynomial))
  }

  /** What a step sends. */
  datatype Outgoing = Outgoing(
    commitment: Option<Gammas>,
    evals: seq<PolyEvalMsg>,
    accused: Option<seq<nat>>,
    apologies: Option<seq<ApologyMsg>>,
    result: Option<Result<DKGResult>>)

  /** The dealers this keyper accuses. */
  ghost predicate AccusesExactly(s: State, accused: seq<nat>)
    requires s.Valid()
  {
    forall d: nat :: d in accused <==> d < s.pub.numKeypers && Accuses(s, d)
  }

  /** Later phases do not change whom a keyper has reason to accuse. */
  lemma AccusationsStand(s: State, t: State, accused: seq<nat>)
    requires s.Valid() && t.Valid() && AccusesExactly(s, accused)
    requires s.evals == t.evals && s.keyper == t.keyper
    requires s.pub.(accusations := {}, apologies := map[]) == t.pub.(accusations := {}, apologies := map[])
    ensures AccusesExactly(t, accused)
  {
    forall d: nat | d < s.pub.numKeypers
      ensures Accuses(s, d) == Accuses(t, d)
    {
    }
  }

  /** One apology for every accusation against this keyper, with its own value. */
  ghost predicate Answers(s: State, p: Polynomial, msgs: seq<ApologyMsg>)
    requires s.pub.q > 0
  {
    && (forall key :: key in s.pub.accusations && key.accused == s.keyper <==>
          exists i :: 0 <= i < |msgs| && msgs[i].key == key)
    && (forall i, j :: 0 <= i < j < |msgs| ==> msgs[i].key != msgs[j].key)
    && (forall i :: 0 <= i < |msgs| ==> msgs[i].eval == PolyValue(p, KeyperX(msgs[i].key.accuser)) % s.pub.q)
  }

  /** One message for every other keyper, in order, with the polynomial's value for it. */
  ghost predicate Deals(s: State, p: Polynomial, msgs: seq<PolyEvalMsg>)
    requires s.pub.q > 0
  {
    && |msgs| == s.pub.numKeypers - 1
    && forall i :: 0 <= i < |msgs| ==>
         && msgs[i].receiver == (if i < s.keyper then i else i + 1)
         && msgs[i].eval == PolyValue(p, KeyperX(msgs[i].receiver)) % s.pub.q
  }

  /** Dealing, if it is due, then the events of the dealing phase. */
  method DealAndSync(env: Env, pure: PureDKG, known: DKGEon, ghost chain: DKGEon,
                     syncHeight: int, current: int) returns (commitment: Option<Gammas>, evals: seq<PolyEvalMsg>)
    requires Ready(env, pure)
    requires Knows(known, chain, syncHeight, current)
    modifies pure
    ensures Ready(env, pure)
    ensures pure.View() == Early(env, old(pure.View()), chain, syncHeight, current)
    ensures pure.phase == Begun(env, old(pure.View()), env.PhaseOf(current + 1)).phase
    ensures commitment.Some? <==> old(pure.phase) == Off && env.PhaseOf(current + 1) == Dealing
    ensures commitment.Some? ==> CommitsTo(pure.q, commitment.value, env.polynomial)
    ensures if commitment.Some? then Deals(pure.View(), env.polynomial, evals) else evals == []
  {
    commitment, evals := None, [];
    var ph := env.PhaseOf(current + 1);
    if pure.phase == Off && Rank(ph) >= Rank(Dealing) {
      var gammas, msgs := pure.StartPhase1Dealing(env.polynomial);
      if ph == Dealing {
        commitment, evals := Some(gammas), msgs;
      }
    }
    assert pure.View() == Begun(env, old(pure.View()), ph);
    SyncCommitments(env, pure, known.commitments, syncHeight);
    SyncPolyEvals(env, pure, known.polyEvals, syncHeight);
  }

  /** Accusing, if it is due, then the events of the accusing phase. */
  method AccuseAndSync(env: Env, pure: PureDKG, known: DKGEon, ghost chain: DKGEon,
                       syncHeight: int, current: int) returns (accused: Option<seq<nat>>)
    requires Ready(env, pure) && Knows(known, chain, syncHeight, current)
    modifies pure`phase, pure`accusations
    ensures Ready(env, pure)
    ensures pure.View() == Accusations(env, Advance(old(pure.View()), env.PhaseOf(current + 1), Dealing, Accusing),
                                       Window(chain.accusations, syncHeight, current))
    ensures pure.phase == Advance(old(pure.View()), env.PhaseOf(current + 1), Dealing, Accusing).phase
    ensures accused.Some? <==> old(pure.phase) == Dealing && env.PhaseOf(current + 1) == Accusing
    ensures accused.Some? ==> AccusesExactly(pure.View(), accused.value)
  {
    accused := None;
    var ph := env.PhaseOf(current + 1);
    if pure.phase == Dealing && Rank(ph) >= Rank(Accusing) {
      var l := pure.StartPhase2Accusing();
      if ph == Accusing {
        accused := Some(l);
      }
    }
    SyncAccusations(env, pure, known.accusations, syncHeight);
  }

  /** Apologizing, if it is due, then the events of the apologizing phase. */
  method ApologizeAndSync(env: Env, pure: PureDKG, known: DKGEon, ghost chain: DKGEon,
                          syncHeight: int, current: int) returns (apologies: Option<seq<ApologyMsg>>)
    requires Ready(env, pure) && Knows(known, chain, syncHeight, current)
    modifies pure`phase, pure`apologies
    ensures Ready(env, pure)
    ensures pure.View() == Apologies(env, Advance(old(pure.View()), env.PhaseOf(current + 1), Accusing, Apologizing),
                                     Window(chain.apologies, syncHeight, current))
    ensures pure.phase == Advance(old(pure.View()), env.PhaseOf(current + 1), Accusing, Apologizing).phase
    ensures apologies.Some? <==> old(pure.phase) == Accusing && env.PhaseOf(current + 1) == Apologizing
    ensures apologies.Some? ==> Answers(pure.View(), env.polynomial, apologies.value)
  {
    apologies := None;
    var ph := env.PhaseOf(current + 1);
    if pure.phase == Accusing && Rank(ph) >= Rank(Apologizing) {
      var l := pure.StartPhase3Apologizing();
      if ph == Apologizing {
        apologies := Some(l);
      }
    }
    SyncApologies(env, pure, known.apologies, syncHeight);
  }

  /** The DKG ends with its result exactly if it succeeds. */
  ghost predicate Concludes(s: State, r: Result<DKGResult>)
    requires s.Valid()
  {
    (r.Ok? <==> Succeeds(s)) && (r.Ok? ==> IsResult(s, r.value))
  }

  /** Finishing, if it is due. */
  method FinishIfDue(env: Env, pure: PureDKG, ph: Phase) returns (result: Option<Result<DKGResult>>)
    requires Ready(env, pure)
    modifies pure`phase
    ensures Ready(env, pure) && pure.View() == Advance(old(pure.View()), ph, Apologizing, Finalized)
    ensures result.Some? <==> old(pure.phase) == Apologizing && ph == Finalized
    ensures result.Some? ==> Concludes(pure.View(), result.value)
  {
    result := None;
    if pure.phase == Apologizing && Rank(ph) >= Rank(Finalized) {
      pure.Finalize();
      var r := pure.ComputeResult();
      result := Some(r);
    }
  }

  /** The part of the step after dealing. */
  method AccuseAndFinish(env: Env, pure: PureDKG, known: DKGEon, ghost chain: DKGEon, syncHeight: int, current: int)
    returns (accused: Option<seq<nat>>, apologies: Option<seq<ApologyMsg>>, result: Option<Result<DKGResult>>)
    requires Ready(env, pure) && pure.phase != Finalized
    requires Knows(known, chain, syncHeight, current)
    modifies pure
    ensures Ready(env, pure)
    ensures pure.View() == Late(env, old(pure.View()), chain, syncHeight, current)
    ensures accused.Some? <==> old(pure.phase) == Dealing && env.PhaseOf(current + 1) == Accusing
    ensures accused.Some? ==> AccusesExactly(pure.View(), accused.value)
    ensures apologies.Some?
      <==> old(pure.phase) in {Dealing, Accusing} && env.PhaseOf(current + 1) == Apologizing
    ensures apologies.Some? ==> Answers(pure.View(), env.polynomial, apologies.value)
    ensures result.Some? <==> pure.phase == Finalized
    ensures result.Some? ==> Concludes(pure.View(), result.value)
  {
    accused := AccuseAndSync(env, pure, known, chain, syncHeight, current);
    ghost var s := pure.View();
    apologies := ApologizeAndSync(env, pure, known, chain, syncHeight, current);
    result := FinishIfDue(env, pure, env.PhaseOf(current + 1));
    if accused.Some? {
      AccusationsStand(s, pure.View(), accused.value);
    }
  }

  /** The step does to the object what `SyncDKG` says; the object's phases are taken
      in order, so its phase check never panics. A message of a phase is sent only if
      the next block still lies in that phase, and the result is computed once. */
  method SyncDKGWithEon(env: Env, pure: PureDKG, known: DKGEon, ghost chain: DKGEon,
                        syncHeight: int, current: int) returns (out: Outgoing)
    requires Ready(env, pure) && pure.phase != Finalized
    requires Knows(known, chain, syncHeight, current)
    modifies pure
    ensures Ready(env, pure)
    ensures pure.View() == SyncDKG(env, old(pure.View()), chain, syncHeight, current)
    ensures out.commitment.Some? <==> old(pure.phase) == Off && env.PhaseOf(current + 1) == Dealing
    ensures out.commitment.Some? ==> CommitsTo(pure.q, out.commitment.value, env.polynomial)
    ensures if out.commitment.Some? then Deals(pure.View(), env.polynomial, out.evals) else out.evals == []
    ensures out.accused.Some? <==> Rank(old(pure.phase)) <= Rank(Dealing) && env.PhaseOf(current + 1) == Accusing
    ensures out.accused.Some? ==> AccusesExactly(pure.View(), out.accused.value)
    ensures out.apologies.Some?
      <==> Rank(old(pure.phase)) <= Rank(Accusing) && env.PhaseOf(current + 1) == Apologizing
    ensures out.apologies.Some? ==> Answers(pure.View(), env.polynomial, out.apologies.value)
    ensures out.result.Some? <==> pure.phase == Finalized
    ensures out.result.Some? ==> Concludes(pure.View(), out.result.value)
  {
    var commitment, evals := DealAndSync(env, pure, known, chain, syncHeight, current);
    var accused, apologies, result := AccuseAndFinish(env, pure, known, chain, syncHeight, current);
    out := Outgoing(commitment, evals, accused, apologies, result);
  }
}
