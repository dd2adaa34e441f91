/** How a keyper drives its DKG from the chain it sees in chunks.

    A step at block height c feeds the DKG all events from the last synced height
    up to c and moves it through the phases up to the phase of block c + 1. The
    result does not depend on how the chain was cut into steps. */
module KeyperSync {
  import opened Addresses
  import opened Outcome
  import opened Feldman
  import opened Groups
  import opened Observe
  import opened DistributedKeyGeneration
  import Encryption

  datatype CommitmentMsg = CommitmentMsg(eon: nat, sender: Address, gammas: Gammas)
  datatype EvalMsg = EvalMsg(eon: nat, sender: Address, evals: seq<(Address, Encryption.Bytes)>)
  datatype AccusationMsg = AccusationMsg(sender: Address, accused: seq<Address>)
  datatype ApologyEvent = ApologyEvent(sender: Address, apologies: seq<(Address, int)>)

  type DKGEon = Eon<CommitmentMsg, EvalMsg, AccusationMsg, ApologyEvent>

  // ----- phases

  /** Accumulated lengths of the phases. */
  datatype PhaseLength = PhaseLength(off: int, dealing: int, accusing: int, apologizing: int)

  function ConstantPhaseLength(l: int): PhaseLength {
    PhaseLength(0, l, 2 * l, 3 * l)
  }

  function PhaseAt(plen: PhaseLength, height: int, eonStart: int): Phase {
    if height < eonStart + plen.off then Off
    else if height < eonStart + plen.dealing then Dealing
    else if height < eonStart + plen.accusing then Accusing
    else if height < eonStart + plen.apologizing then Apologizing
    else Finalized
  }

  lemma PhaseMonotone(plen: PhaseLength, h: int, h': int, eonStart: int)
    requires h <= h'
    ensures Rank(PhaseAt(plen, h, eonStart)) <= Rank(PhaseAt(plen, h', eonStart))
  {
  }

  // ----- one keyper's fixed data for one eon

  datatype Env = Env(
    keypers: seq<Address>,
    plen: PhaseLength,
    start: int,
    decrypt: Encryption.Bytes -> Option<Encryption.Bytes>,
    polynomial: Polynomial)
  {
    function PhaseOf(height: int): Phase {
      PhaseAt(plen, height, start)
    }
  }

  ghost predicate Fits(env: Env, s: State) {
    && s.Valid() && s.pub.numKeypers == |env.keypers|
    && ValidPolynomial(s.pub.q, env.polynomial) && |env.polynomial| == s.pub.threshold
  }

  // ----- feeding events, one list at a time

  function OneCommitment(env: Env, s: State, ev: At<CommitmentMsg>): (s': State)
    requires s.Valid() && s.pub.numKeypers == |env.keypers|
    ensures s'.Valid() && s'.pub.numKeypers == s.pub.numKeypers
  {
    var sender := FindAddressIndex(env.keypers, ev.msg.sender);
    if env.PhaseOf(ev.height) != Dealing || sender.None? then s
    else After(s, HandlePolyCommitment(s, ev.msg.eon, sender.value, ev.msg.gammas))
  }

  function Commitments(env: Env, s: State, evs: seq<At<CommitmentMsg>>): (s': State)
    requires s.Valid() && s.pub.numKeypers == |env.keypers|
    ensures s'.Valid() && s'.pub.numKeypers == s.pub.numKeypers
  {
    if evs == [] then s
    else OneCommitment(env, Commitments(env, s, evs[..|evs| - 1]), evs[|evs| - 1])
  }

  function OneEval(env: Env, s: State, eon: nat, sender: nat, e: (Address, Encryption.Bytes)): (s': State)
    requires s.Valid() && s.pub.numKeypers == |env.keypers| && sender < s.pub.numKeypers
    ensures s'.Valid() && s'.pub.numKeypers == s.pub.numKeypers && s'.keyper == s.keyper
  {
    var plain := env.decrypt(e.1);
    if FindAddressIndex(env.keypers, e.0) != Some(s.keyper) || plain.None? then s
    else After(s, HandlePolyEval(s, eon, sender, s.keyper, Encryption.SetBytes(plain.value)))
  }

  function EvalList(env: Env, s: State, eon: nat, sender: nat, es: seq<(Address, Encryption.Bytes)>): (s': State)
    requires s.Valid() && s.pub.numKeypers == |env.keypers| && sender < s.pub.numKeypers
    ensures s'.Valid() && s'.pub.numKeypers == s.pub.numKeypers && s'.keyper == s.keyper
  {
    if es == [] then s
    else OneEval(env, EvalList(env, s, eon, sender, es[..|es| - 1]), eon, sender, es[|es| - 1])
  }

  function OneEvalMsg(env: Env, s: State, ev: At<EvalMsg>): (s': State)
    requires s.Valid() && s.pub.numKeypers == |env.keypers|
    ensures s'.Valid() && s'.pub.numKeypers == s.pub.numKeypers && s'.keyper == s.keyper
  {
    var sender := FindAddressIndex(env.keypers, ev.msg.sender);
    if env.PhaseOf(ev.height) != Dealing || sender.None? || sender.value == s.keyper then s
    else EvalList(env, s, ev.msg.eon, sender.value, ev.msg.evals)
  }

  function PolyEvals(env: Env, s: State, evs: seq<At<EvalMsg>>): (s': State)
    requires s.Valid() && s.pub.numKeypers == |env.keypers|
    ensures s'.Valid() && s'.pub.numKeypers == s.pub.numKeypers && s'.keyper == s.keyper
  {
    if evs == [] then s
    else OneEvalMsg(env, PolyEvals(env, s, evs[..|evs| - 1]), evs[|evs| - 1])
  }

  function AccusationList(env: Env, s: State, accuser: nat, accused: seq<Address>): (s': State)
    requires s.Valid() && s.pub.numKeypers == |env.keypers|
    ensures s'.Valid() && s'.pub.numKeypers == s.pub.numKeypers
  {
    if accused == [] then s
    else
      var t := AccusationList(env, s, accuser, accused[..|accused| - 1]);
      var index := FindAddressIndex(env.keypers, accused[|accused| - 1]);
      if index.None? then t else After(t, HandleAccusation(t, t.eon, AccusationKey(accuser, index.value)))
  }

  function OneAccusation(env: Env, s: State, ev: At<AccusationMsg>): (s': State)
    requires s.Valid() && s.pub.numKeypers == |env.keypers|
    ensures s'.Valid() && s'.pub.numKeypers == s.pub.numKeypers
  {
    var sender := FindAddressIndex(env.keypers, ev.msg.sender);
    if env.PhaseOf(ev.height) != Accusing || sender.None? then s
    else AccusationList(env, s, sender.value, ev.msg.accused)
  }

  function Accusations(env: Env, s: State, evs: seq<At<AccusationMsg>>): (s': State)
    requires s.Valid() && s.pub.numKeypers == |env.keypers|
    ensures s'.Valid() && s'.pub.numKeypers == s.pub.numKeypers
  {
    if evs == [] then s
    else OneAccusation(env, Accusations(env, s, evs[..|evs| - 1]), evs[|evs| - 1])
  }

  function ApologyList(env: Env, s: State, accused: nat, apologies: seq<(Address, int)>): (s': State)
    requires s.Valid() && s.pub.numKeypers == |env.keypers|
    ensures s'.Valid() && s'.pub.numKeypers == s.pub.numKeypers
  {
    if apologies == [] then s
    else
      var last := apologies[|apologies| - 1];
      var t := ApologyList(env, s, accused, apologies[..|apologies| - 1]);
      var index := FindAddressIndex(env.keypers, last.0);
      if index.None? then t else After(t, HandleApology(t, t.eon, AccusationKey(index.value, accused), last.1))
  }

  function OneApology(env: Env, s: State, ev: At<ApologyEvent>): (s': State)
    requires s.Valid() && s.pub.numKeypers == |env.keypers|
    ensures s'.Valid() && s'.pub.numKeypers == s.pub.numKeypers
  {
    var sender := FindAddressIndex(env.keypers, ev.msg.sender);
    if env.PhaseOf(ev.height) != Apologizing || sender.None? then s
    else ApologyList(env, s, sender.value, ev.msg.apologies)
  }

  function Apologies(env: Env, s: State, evs: seq<At<ApologyEvent>>): (s': State)
    requires s.Valid() && s.pub.numKeypers == |env.keypers|
    ensures s'.Valid() && s'.pub.numKeypers == s.pub.numKeypers
  {
    if evs == [] then s
    else OneApology(env, Apologies(env, s, evs[..|evs| - 1]), evs[|evs| - 1])
  }

  // ----- one step

  /** The events up to a height. */
  function UpTo<T>(events: seq<At<T>>, height: int): seq<At<T>> {
    if events == [] then []
    else
      var n := |events| - 1;
      UpTo(events[..n], height) + if events[n].height <= height then [events[n]] else []
  }

  /** The unread events of a chain that is known up to `current`. */
  function Window<T>(events: seq<At<T>>, syncHeight: int, current: int): seq<At<T>> {
    From(UpTo(events, current), syncHeight)
  }

  function Dealt(env: Env, s: State): (s': State)
    requires s.Valid()
    ensures s'.Valid() && s'.pub == s.pub
  {
    s.(phase := Dealing, polynomial := Some(env.polynomial),
       evals := s.evals[s.keyper := Some(PolyValue(env.polynomial, KeyperX(s.keyper)) % s.pub.q)])
  }

  function Advance(s: State, ph: Phase, from: Phase, to: Phase): State {
    if s.phase == from && Rank(ph) >= Rank(to) then s.(phase := to) else s
  }

  /** The part of a step from the end of dealing on. */
  function Late(env: Env, s: State, eon: DKGEon, syncHeight: int, current: int): (s': State)
    requires s.Valid() && s.pub.numKeypers == |env.keypers|
    ensures s'.Valid() && s'.pub.numKeypers == s.pub.numKeypers
  {
    var ph := env.PhaseOf(current + 1);
    var s1 := Accusations(env, Advance(s, ph, Dealing, Accusing), Window(eon.accusations, syncHeight, current));
    var s2 := Apologies(env, Advance(s1, ph, Accusing, Apologizing), Window(eon.apologies, syncHeight, current));
    Advance(s2, ph, Apologizing, Finalized)
  }

  /** The state with dealing done, if it is due. */
  function Begun(env: Env, s: State, ph: Phase): (s': State)
    requires s.Valid()
    ensures s'.Valid() && s'.pub == s.pub && SameKeyper(s, s')
  {
    if s.phase == Off && Rank(ph) >= Rank(Dealing) then Dealt(env, s) else s
  }

  /** The part of a step up to the end of dealing. */
  function Early(env: Env, s: State, eon: DKGEon, syncHeight: int, current: int): (s': State)
    requires s.Valid() && s.pub.numKeypers == |env.keypers|
    ensures s'.Valid() && s'.pub.numKeypers == s.pub.numKeypers
  {
    var s1 := Commitments(env, Begun(env, s, env.PhaseOf(current + 1)), Window(eon.commitments, syncHeight, current));
    PolyEvals(env, s1, Window(eon.polyEvals, syncHeight, current))
  }

  /** One step of the DKG at block height `current`; a finished DKG is left alone. */
  function SyncDKG(env: Env, s: State, eon: DKGEon, syncHeight: int, current: int): (s': State)
    requires s.Valid() && s.pub.numKeypers == |env.keypers|
    ensures s'.Valid() && s'.pub.numKeypers == s.pub.numKeypers
  {
    if s.phase == Finalized then s
    else Late(env, Early(env, s, eon, syncHeight, current), eon, syncHeight, current)
  }

  // ----- what feeding a list depends on, and what it changes

  /** Events of the given phase can still be fed, or there are none. */
  predicate Open<T>(env: Env, phase: Phase, evs: seq<At<T>>, wanted: Phase) {
    Rank(phase) <= Rank(wanted) || forall i :: 0 <= i < |evs| ==> env.PhaseOf(evs[i].height) != wanted
  }

  /** The parts of the state that never change. */
  predicate SameKeyper(s: State, t: State) {
    && s.eon == t.eon && s.keyper == t.keyper && s.pub.q == t.pub.q
    && s.pub.numKeypers == t.pub.numKeypers && s.pub.threshold == t.pub.threshold
  }

  function WithCommitments(s: State, t: State): State {
    s.(pub := s.pub.(commitments := t.pub.commitments))
  }

  function WithAccusations(s: State, t: State): State {
    s.(pub := s.pub.(accusations := t.pub.accusations))
  }

  function WithApologies(s: State, t: State): State {
    s.(pub := s.pub.(apologies := t.pub.apologies))
  }

  ghost predicate Comparable(env: Env, s: State, t: State) {
    s.Valid() && t.Valid() && SameKeyper(s, t) && s.pub.numKeypers == |env.keypers|
  }

  lemma {:induction false} CommitmentsFrame(env: Env, s: State, t: State, evs: seq<At<CommitmentMsg>>)
    requires Comparable(env, s, t) && s.pub.commitments == t.pub.commitments
    requires Open(env, s.phase, evs, Dealing) && Open(env, t.phase, evs, Dealing)
    ensures Commitments(env, s, evs) == WithCommitments(s, Commitments(env, t, evs))
    decreases |evs|
  {
    if evs != [] {
      CommitmentsFrame(env, s, t, evs[..|evs| - 1]);
      CommitmentsFrame(env, t, t, evs[..|evs| - 1]);
    }
  }

  lemma {:induction false} EvalListFrame(env: Env, s: State, t: State, eon: nat, sender: nat,
                                         es: seq<(Address, Encryption.Bytes)>)
    requires Comparable(env, s, t) && s.evals == t.evals && sender < s.pub.numKeypers
    requires Rank(s.phase) <= Rank(Dealing) && Rank(t.phase) <= Rank(Dealing)
    ensures EvalList(env, s, eon, sender, es) == s.(evals := EvalList(env, t, eon, sender, es).evals)
    decreases |es|
  {
    if es != [] {
      EvalListFrame(env, s, t, eon, sender, es[..|es| - 1]);
      EvalListFrame(env, t, t, eon, sender, es[..|es| - 1]);
    }
  }

  lemma {:induction false} PolyEvalsFrame(env: Env, s: State, t: State, evs: seq<At<EvalMsg>>)
    requires Comparable(env, s, t) && s.evals == t.evals
    requires Open(env, s.phase, evs, Dealing) && Open(env, t.phase, evs, Dealing)
    ensures PolyEvals(env, s, evs) == s.(evals := PolyEvals(env, t, evs).evals)
    ensures SameKeyper(t, PolyEvals(env, t, evs)) && PolyEvals(env, t, evs).phase == t.phase
    decreases |evs|
  {
    if evs != [] {
      var n := |evs| - 1;
      PolyEvalsFrame(env, s, t, evs[..n]);
      PolyEvalsFrame(env, t, t, evs[..n]);
      var s', t' := PolyEvals(env, s, evs[..n]), PolyEvals(env, t, evs[..n]);
      var sender := FindAddressIndex(env.keypers, evs[n].msg.sender);
      if env.PhaseOf(evs[n].height) == Dealing && sender.Some? {
        EvalListFrame(env, s', t', evs[n].msg.eon, sender.value, evs[n].msg.evals);
        EvalListFrame(env, t', t', evs[n].msg.eon, sender.value, evs[n].msg.evals);
      }
    }
  }

  lemma {:induction false} AccusationListFrame(env: Env, s: State, t: State, accuser: nat, accused: seq<Address>)
    requires Comparable(env, s, t) && s.pub.accusations == t.pub.accusations
    requires Rank(s.phase) <= Rank(Accusing) && Rank(t.phase) <= Rank(Accusing)
    ensures AccusationList(env, s, accuser, accused) == WithAccusations(s, AccusationList(env, t, accuser, accused))
    decreases |accused|
  {
    if accused != [] {
      AccusationListFrame(env, s, t, accuser, accused[..|accused| - 1]);
      AccusationListFrame(env, t, t, accuser, accused[..|accused| - 1]);
    }
  }

  lemma {:induction false} AccusationsFrame(env: Env, s: State, t: State, evs: seq<At<AccusationMsg>>)
    requires Comparable(env, s, t) && s.pub.accusations == t.pub.accusations
    requires Open(env, s.phase, evs, Accusing) && Open(env, t.phase, evs, Accusing)
    ensures Accusations(env, s, evs) == WithAccusations(s, Accusations(env, t, evs))
    decreases |evs|
  {
    if evs != [] {
      var n := |evs| - 1;
      AccusationsFrame(env, s, t, evs[..n]);
      AccusationsFrame(env, t, t, evs[..n]);
      var s', t' := Accusations(env, s, evs[..n]), Accusations(env, t, evs[..n]);
      var sender := FindAddressIndex(env.keypers, evs[n].msg.sender);
      if env.PhaseOf(evs[n].height) == Accusing && sender.Some? {
        AccusationListFrame(env, s', t', sender.value, evs[n].msg.accused);
      }
    }
  }

  lemma {:induction false} ApologyListFrame(env: Env, s: State, t: State, accused: nat, apologies: seq<(Address, int)>)
    requires Comparable(env, s, t) && s.pub.apologies == t.pub.apologies
    requires Rank(s.phase) <= Rank(Apologizing) && Rank(t.phase) <= Rank(Apologizing)
    ensures ApologyList(env, s, accused, apologies) == WithApologies(s, ApologyList(env, t, accused, apologies))
    decreases |apologies|
  {
    if apologies != [] {
      ApologyListFrame(env, s, t, accused, apologies[..|apologies| - 1]);
      ApologyListFrame(env, t, t, accused, apologies[..|apologies| - 1]);
    }
  }

  lemma {:induction false} ApologiesFrame(env: Env, s: State, t: State, evs: seq<At<ApologyEvent>>)
    requires Comparable(env, s, t) && s.pub.apologies == t.pub.apologies
    requires Open(env, s.phase, evs, Apologizing) && Open(env, t.phase, evs, Apologizing)
    ensures Apologies(env, s, evs) == WithApologies(s, Apologies(env, t, evs))
    decreases |evs|
  {
    if evs != [] {
      var n := |evs| - 1;
      ApologiesFrame(env, s, t, evs[..n]);
      ApologiesFrame(env, t, t, evs[..n]);
      var s', t' := Apologies(env, s, evs[..n]), Apologies(env, t, evs[..n]);
      var sender := FindAddressIndex(env.keypers, evs[n].msg.sender);
      if env.PhaseOf(evs[n].height) == Apologizing && sender.Some? {
        ApologyListFrame(env, s', t', sender.value, evs[n].msg.apologies);
      }
    }
  }

  // ----- feeding a list in two parts, or a list with nothing to feed

  lemma {:induction false} CommitmentsConcat(env: Env, s: State, a: seq<At<CommitmentMsg>>, b: seq<At<CommitmentMsg>>)
    requires s.Valid() && s.pub.numKeypers == |env.keypers|
    ensures Commitments(env, s, a + b) == Commitments(env, Commitments(env, s, a), b)
    decreases |b|
  {
    if b == [] {
      assert a + b == a;
    } else {
      assert (a + b)[..|a + b| - 1] == a + b[..|b| - 1];
      CommitmentsConcat(env, s, a, b[..|b| - 1]);
    }
  }

  lemma {:induction false} PolyEvalsConcat(env: Env, s: State, a: seq<At<EvalMsg>>, b: seq<At<EvalMsg>>)
    requires s.Valid() && s.pub.numKeypers == |env.keypers|
    ensures PolyEvals(env, s, a + b) == PolyEvals(env, PolyEvals(env, s, a), b)
    decreases |b|
  {
    if b == [] {
      assert a + b == a;
    } else {
      assert (a + b)[..|a + b| - 1] == a + b[..|b| - 1];
      PolyEvalsConcat(env, s, a, b[..|b| - 1]);
    }
  }

  lemma {:induction false} AccusationsConcat(env: Env, s: State, a: seq<At<AccusationMsg>>, b: seq<At<AccusationMsg>>)
    requires s.Valid() && s.pub.numKeypers == |env.keypers|
    ensures Accusations(env, s, a + b) == Accusations(env, Accusations(env, s, a), b)
    decreases |b|
  {
    if b == [] {
      assert a + b == a;
    } else {
      assert (a + b)[..|a + b| - 1] == a + b[..|b| - 1];
      AccusationsConcat(env, s, a, b[..|b| - 1]);
    }
  }

  lemma {:induction false} ApologiesConcat(env: Env, s: State, a: seq<At<ApologyEvent>>, b: seq<At<ApologyEvent>>)
    requires s.Valid() && s.pub.numKeypers == |env.keypers|
    ensures Apologies(env, s, a + b) == Apologies(env, Apologies(env, s, a), b)
    decreases |b|
  {
    if b == [] {
      assert a + b == a;
    } else {
      assert (a + b)[..|a + b| - 1] == a + b[..|b| - 1];
      ApologiesConcat(env, s, a, b[..|b| - 1]);
    }
  }

  /** No event of the list has the height of the given phase. */
  predicate Without<T>(env: Env, evs: seq<At<T>>, wanted: Phase) {
    forall i :: 0 <= i < |evs| ==> env.PhaseOf(evs[i].height) != wanted
  }

  lemma {:induction false} CommitmentsSkip(env: Env, s: State, evs: seq<At<CommitmentMsg>>)
    requires s.Valid() && s.pub.numKeypers == |env.keypers| && Without(env, evs, Dealing)
    ensures Commitments(env, s, evs) == s
    decreases |evs|
  {
    if evs != [] {
      CommitmentsSkip(env, s, evs[..|evs| - 1]);
    }
  }

  lemma {:induction false} PolyEvalsSkip(env: Env, s: State, evs: seq<At<EvalMsg>>)
    requires s.Valid() && s.pub.numKeypers == |env.keypers| && Without(env, evs, Dealing)
    ensures PolyEvals(env, s, evs) == s
    decreases |evs|
  {
    if evs != [] {
      PolyEvalsSkip(env, s, evs[..|evs| - 1]);
    }
  }

  lemma {:induction false} AccusationsSkip(env: Env, s: State, evs: seq<At<AccusationMsg>>)
    requires s.Valid() && s.pub.numKeypers == |env.keypers| && Without(env, evs, Accusing)
    ensures Accusations(env, s, evs) == s
    decreases |evs|
  {
    if evs != [] {
      AccusationsSkip(env, s, evs[..|evs| - 1]);
    }
  }

  lemma {:induction false} ApologiesSkip(env: Env, s: State, evs: seq<At<ApologyEvent>>)
    requires s.Valid() && s.pub.numKeypers == |env.keypers| && Without(env, evs, Apologizing)
    ensures Apologies(env, s, evs) == s
    decreases |evs|
  {
    if evs != [] {
      ApologiesSkip(env, s, evs[..|evs| - 1]);
    }
  }

  // ----- windows

  function Within<T>(e: At<T>, h: int, c: int): seq<At<T>> {
    if h <= e.height <= c then [e] else []
  }

  lemma WindowSnoc<T>(events: seq<At<T>>, e: At<T>, h: int, c: int)
    ensures Window(events + [e], h, c) == Window(events, h, c) + Within(e, h, c)
  {
    assert (events + [e])[..|events|] == events;
    var last := if e.height <= c then [e] else [];
    FromConcat(UpTo(events, c), last, h);
    assert [e][..0] == [];
  }

  predicate Between<T>(evs: seq<At<T>>, h: int, c: int) {
    forall i :: 0 <= i < |evs| ==> h <= evs[i].height <= c
  }

  lemma {:induction false} WindowHeights<T>(events: seq<At<T>>, h: int, c: int)
    ensures Between(Window(events, h, c), h, c)
  {
    if events != [] {
      var n := |events| - 1;
      WindowHeights(events[..n], h, c);
      assert events == events[..n] + [events[n]];
      WindowSnoc(events[..n], events[n], h, c);
    }
  }

  lemma {:induction false} WindowPast<T>(events: seq<At<T>>, h: int, c: int)
    requires forall i :: 0 <= i < |events| ==> events[i].height < h
    ensures Window(events, h, c) == []
  {
    if events != [] {
      var n := |events| - 1;
      WindowPast(events[..n], h, c);
      assert events == events[..n] + [events[n]];
      WindowSnoc(events[..n], events[n], h, c);
    }
  }

  lemma Regroup<T>(a: seq<T>, b: seq<T>, c: seq<T>)
    ensures (a + b) + c == a + (b + c)
  {
  }

  /** Two steps together read what one larger step would: nothing twice, nothing
      left out. */
  lemma {:induction false} WindowSplit<T>(events: seq<At<T>>, h: int, c: int, c': int)
    requires Sorted(events) && h <= c + 1 && c <= c'
    ensures Window(events, h, c') == Window(events, h, c) + Window(events, c + 1, c')
  {
    if events != [] {
      var n := |events| - 1;
      var init, e := events[..n], events[n];
      WindowSplit(init, h, c, c');
      assert events == init + [e];
      WindowSnoc(init, e, h, c');
      WindowSnoc(init, e, h, c);
      WindowSnoc(init, e, c + 1, c');
      if e.height <= c {
        WindowPast(init, c + 1, c');
        WindowPast(events, c + 1, c');
      } else {
        Regroup(Window(init, h, c), Window(init, c + 1, c'), Within(e, c + 1, c'));
      }
    }
  }

  /** Reading a list that has been filtered at heights up to the sync height gives
      the same events as reading the chain itself. */
  lemma FilteredWindow<T>(events: seq<At<T>>, ops: seq<ListOp<T>>, h: int, c: int)
    requires Unfiltered([], ops) == UpTo(events, c)
    requires forall i :: 0 <= i < |ops| && ops[i].Filter? ==> ops[i].syncHeight <= h
    ensures From(Apply([], ops), h) == Window(events, h, c)
  {
    FilterInvisible([], [], ops, h);
  }

  // ----- what the lists come to, event by event

  /** Some event in the accusing phase has the accuser accuse the dealer. */
  ghost predicate Accused(env: Env, evs: seq<At<AccusationMsg>>, key: AccusationKey) {
    exists i :: 0 <= i < |evs| && env.PhaseOf(evs[i].height) == Accusing && NamedBy(env, evs[i].msg, key)
  }

  ghost predicate NamedBy(env: Env, msg: AccusationMsg, key: AccusationKey) {
    && FindAddressIndex(env.keypers, msg.sender) == Some(key.accuser)
    && Names(env, msg.accused, key.accused)
  }

  ghost predicate Names(env: Env, accused: seq<Address>, dealer: nat) {
    exists j :: 0 <= j < |accused| && FindAddressIndex(env.keypers, accused[j]) == Some(dealer)
  }

  lemma {:induction false} AccusationListExact(env: Env, s: State, accuser: nat, accused: seq<Address>, key: AccusationKey)
    requires s.Valid() && s.pub.numKeypers == |env.keypers| && Rank(s.phase) <= Rank(Accusing)
    ensures AccusationList(env, s, accuser, accused).phase == s.phase
    ensures key in AccusationList(env, s, accuser, accused).pub.accusations
      <==> key in s.pub.accusations || (key.accuser == accuser && Names(env, accused, key.accused))
    decreases |accused|
  {
    if accused != [] {
      var n := |accused| - 1;
      AccusationListExact(env, s, accuser, accused[..n], key);
      var last := FindAddressIndex(env.keypers, accused[n]) == Some(key.accused);
      assert Names(env, accused, key.accused) <==> Names(env, accused[..n], key.accused) || last;
    }
  }

  /** A DKG fed from before its accusing phase holds exactly the accusations made in
      that phase. */
  lemma {:induction false} AccusationsExact(env: Env, s: State, evs: seq<At<AccusationMsg>>, key: AccusationKey)
    requires s.Valid() && s.pub.numKeypers == |env.keypers| && Rank(s.phase) <= Rank(Accusing)
    ensures Accusations(env, s, evs).phase == s.phase
    ensures key in Accusations(env, s, evs).pub.accusations <==> key in s.pub.accusations || Accused(env, evs, key)
    decreases |evs|
  {
    if evs != [] {
      var n := |evs| - 1;
      AccusationsExact(env, s, evs[..n], key);
      var sender := FindAddressIndex(env.keypers, evs[n].msg.sender);
      if env.PhaseOf(evs[n].height) == Accusing && sender.Some? {
        AccusationListExact(env, Accusations(env, s, evs[..n]), sender.value, evs[n].msg.accused, key);
      }
      var last := env.PhaseOf(evs[n].height) == Accusing && NamedBy(env, evs[n].msg, key);
      assert Accused(env, evs, key) <==> Accused(env, evs[..n], key) || last;
    }
  }

  /** The event carries a commitment that counts for the dealer. */
  predicate CountsFor(env: Env, s: State, ev: At<CommitmentMsg>, dealer: nat) {
    && env.PhaseOf(ev.height) == Dealing && ev.msg.eon == s.eon
    && FindAddressIndex(env.keypers, ev.msg.sender) == Some(dealer)
    && Degree(ev.msg.gammas) == DegreeFromThreshold(s.pub.threshold)
  }

  /** The dealer's first commitment that counts. */
  function FirstCommitment(env: Env, s: State, evs: seq<At<CommitmentMsg>>, dealer: nat): Option<Gammas> {
    if evs == [] then None
    else if CountsFor(env, s, evs[0], dealer) then Some(evs[0].msg.gammas)
    else FirstCommitment(env, s, evs[1..], dealer)
  }

  lemma {:induction false} FirstCommitmentSnoc(env: Env, s: State, evs: seq<At<CommitmentMsg>>,
                                               e: At<CommitmentMsg>, dealer: nat)
    ensures FirstCommitment(env, s, evs + [e], dealer) ==
      var r := FirstCommitment(env, s, evs, dealer);
      if r.Some? then r else if CountsFor(env, s, e, dealer) then Some(e.msg.gammas) else None
    decreases |evs|
  {
    if evs == [] {
      assert FirstCommitment(env, s, [], dealer) == None;
    } else {
      assert (evs + [e])[1..] == evs[1..] + [e];
      FirstCommitmentSnoc(env, s, evs[1..], e, dealer);
    }
  }

  /** A DKG fed from before the end of dealing holds each dealer's first commitment
      that counts, unless it already held one. */
  lemma {:induction false} CommitmentsExact(env: Env, s: State, evs: seq<At<CommitmentMsg>>, dealer: nat)
    requires s.Valid() && s.pub.numKeypers == |env.keypers| && dealer < |env.keypers|
    requires Rank(s.phase) <= Rank(Dealing)
    ensures Commitments(env, s, evs) == WithCommitments(s, Commitments(env, s, evs))
    ensures Commitments(env, s, evs).pub.commitments[dealer] ==
      if s.pub.commitments[dealer].Some? then s.pub.commitments[dealer] else FirstCommitment(env, s, evs, dealer)
    decreases |evs|
  {
    if evs != [] {
      var n := |evs| - 1;
      CommitmentsExact(env, s, evs[..n], dealer);
      assert evs == evs[..n] + [evs[n]];
      FirstCommitmentSnoc(env, s, evs[..n], evs[n], dealer);
    }
  }

  /** The first of the values that is in range. */
  function FirstValid(q: int, vs: seq<int>): Option<int> {
    if vs == [] then None
    else if ValidEval(q, vs[0]) then Some(vs[0])
    else FirstValid(q, vs[1..])
  }

  lemma {:induction false} FirstValidConcat(q: int, a: seq<int>, b: seq<int>)
    ensures FirstValid(q, a + b) == if FirstValid(q, a).Some? then FirstValid(q, a) else FirstValid(q, b)
    decreases |a|
  {
    if a == [] {
      assert a + b == b;
    } else {
      assert (a + b)[1..] == a[1..] + b;
      FirstValidConcat(q, a[1..], b);
    }
  }

  /** What an entry becomes when values arrive: the first one in range stays. */
  function Filled(q: int, entry: Option<int>, vs: seq<int>): Option<int> {
    if entry.Some? then entry else FirstValid(q, vs)
  }

  lemma FilledTwice(q: int, entry: Option<int>, a: seq<int>, b: seq<int>)
    ensures Filled(q, entry, a + b) == Filled(q, Filled(q, entry, a), b)
    ensures Filled(q, entry, []) == entry
  {
    FirstValidConcat(q, a, b);
  }

  lemma FilledOnce(q: int, entry: Option<int>, v: int)
    ensures Filled(q, entry, [v]) == if entry.None? && ValidEval(q, v) then Some(v) else entry
  {
    assert [v][1..] == [];
    assert FirstValid(q, []) == None;
  }

  /** The values for this keyper in one message, decrypted. */
  function ValuesIn(env: Env, keyper: nat, es: seq<(Address, Encryption.Bytes)>): seq<int> {
    if es == [] then []
    else
      ValuesIn(env, keyper, es[..|es| - 1]) + OneValue(env, keyper, es[|es| - 1])
  }

  function OneValue(env: Env, keyper: nat, e: (Address, Encryption.Bytes)): seq<int> {
    var plain := env.decrypt(e.1);
    if FindAddressIndex(env.keypers, e.0) == Some(keyper) && plain.Some? then [Encryption.SetBytes(plain.value)] else []
  }

  /** All values a dealer has sent this keyper in the dealing phase. */
  function ValuesFrom(env: Env, s: State, evs: seq<At<EvalMsg>>, dealer: nat): seq<int> {
    if evs == [] then []
    else
      ValuesFrom(env, s, evs[..|evs| - 1], dealer) + ValuesOf(env, s, evs[|evs| - 1], dealer)
  }

  function ValuesOf(env: Env, s: State, ev: At<EvalMsg>, dealer: nat): seq<int> {
    if env.PhaseOf(ev.height) == Dealing && ev.msg.eon == s.eon && dealer != s.keyper
       && FindAddressIndex(env.keypers, ev.msg.sender) == Some(dealer)
    then ValuesIn(env, s.keyper, ev.msg.evals) else []
  }

  lemma {:induction false} EvalListExact(env: Env, s: State, eon: nat, sender: nat,
                                         es: seq<(Address, Encryption.Bytes)>, dealer: nat)
    requires s.Valid() && s.pub.numKeypers == |env.keypers| && sender < s.pub.numKeypers && dealer < s.pub.numKeypers
    requires Rank(s.phase) <= Rank(Dealing)
    ensures EvalList(env, s, eon, sender, es) == s.(evals := EvalList(env, s, eon, sender, es).evals)
    ensures EvalList(env, s, eon, sender, es).evals[dealer]
      == if eon == s.eon && dealer == sender then Filled(s.pub.q, s.evals[dealer], ValuesIn(env, s.keyper, es))
         else s.evals[dealer]
    decreases |es|
  {
    if es != [] {
      var n := |es| - 1;
      EvalListExact(env, s, eon, sender, es[..n], dealer);
      FilledTwice(s.pub.q, s.evals[dealer], ValuesIn(env, s.keyper, es[..n]), OneValue(env, s.keyper, es[n]));
      var t := EvalList(env, s, eon, sender, es[..n]);
      FilledTwice(s.pub.q, t.evals[dealer], [], []);
      if env.decrypt(es[n].1).Some? {
        FilledOnce(s.pub.q, t.evals[dealer], Encryption.SetBytes(env.decrypt(es[n].1).value));
      }
    }
  }

  /** A DKG fed from before the end of dealing holds, for each other dealer, the first
      value in range that the dealer sent it in that phase. */
  lemma {:induction false} PolyEvalsExact(env: Env, s: State, evs: seq<At<EvalMsg>>, dealer: nat)
    requires s.Valid() && s.pub.numKeypers == |env.keypers| && dealer < s.pub.numKeypers
    requires Rank(s.phase) <= Rank(Dealing)
    ensures PolyEvals(env, s, evs) == s.(evals := PolyEvals(env, s, evs).evals)
    ensures PolyEvals(env, s, evs).evals[dealer] == Filled(s.pub.q, s.evals[dealer], ValuesFrom(env, s, evs, dealer))
    decreases |evs|
  {
    if evs != [] {
      var n := |evs| - 1;
      PolyEvalsExact(env, s, evs[..n], dealer);
      var msg := evs[n].msg;
      var sender := FindAddressIndex(env.keypers, msg.sender);
      if env.PhaseOf(evs[n].height) == Dealing && sender.Some? {
        EvalListExact(env, PolyEvals(env, s, evs[..n]), msg.eon, sender.value, msg.evals, dealer);
      }
      FilledTwice(s.pub.q, s.evals[dealer], ValuesFrom(env, s, evs[..n], dealer), ValuesOf(env, s, evs[n], dealer));
      FilledTwice(s.pub.q, PolyEvals(env, s, evs[..n]).evals[dealer], [], []);
    }
  }

  /** The values one apology message gives for an accuser. */
  function AnswersIn(env: Env, apologies: seq<(Address, int)>, accuser: nat): seq<int> {
    if apologies == [] then []
    else
      AnswersIn(env, apologies[..|apologies| - 1], accuser) + OneAnswer(env, apologies[|apologies| - 1], accuser)
  }

  function OneAnswer(env: Env, a: (Address, int), accuser: nat): seq<int> {
    if FindAddressIndex(env.keypers, a.0) == Some(accuser) then [a.1] else []
  }

  /** All values given in answer to an accusation in the apologizing phase. */
  function AnswersTo(env: Env, evs: seq<At<ApologyEvent>>, key: AccusationKey): seq<int> {
    if evs == [] then []
    else
      AnswersTo(env, evs[..|evs| - 1], key) + AnswersOf(env, evs[|evs| - 1], key)
  }

  function AnswersOf(env: Env, ev: At<ApologyEvent>, key: AccusationKey): seq<int> {
    if env.PhaseOf(ev.height) == Apologizing && FindAddressIndex(env.keypers, ev.msg.sender) == Some(key.accused)
    then AnswersIn(env, ev.msg.apologies, key.accuser) else []
  }

  function Entry(m: map<AccusationKey, int>, key: AccusationKey): Option<int> {
    if key in m then Some(m[key]) else None
  }

  lemma {:induction false} ApologyListExact(env: Env, s: State, accused: nat, apologies: seq<(Address, int)>,
                                            key: AccusationKey)
    requires s.Valid() && s.pub.numKeypers == |env.keypers| && Rank(s.phase) <= Rank(Apologizing)
    ensures ApologyList(env, s, accused, apologies) == WithApologies(s, ApologyList(env, s, accused, apologies))
    ensures Entry(ApologyList(env, s, accused, apologies).pub.apologies, key)
      == if key.accused == accused then Filled(s.pub.q, Entry(s.pub.apologies, key), AnswersIn(env, apologies, key.accuser))
         else Entry(s.pub.apologies, key)
    decreases |apologies|
  {
    if apologies != [] {
      var n := |apologies| - 1;
      ApologyListExact(env, s, accused, apologies[..n], key);
      var t := ApologyList(env, s, accused, apologies[..n]);
      FilledTwice(s.pub.q, Entry(s.pub.apologies, key), AnswersIn(env, apologies[..n], key.accuser),
                  OneAnswer(env, apologies[n], key.accuser));
      FilledTwice(s.pub.q, Entry(t.pub.apologies, key), [], []);
      FilledOnce(s.pub.q, Entry(t.pub.apologies, key), apologies[n].1);
    }
  }

  /** A DKG fed from before its end holds, for each accusation, the first value in range
      that the accused gave in its phase. */
  lemma {:induction false} ApologiesExact(env: Env, s: State, evs: seq<At<ApologyEvent>>, key: AccusationKey)
    requires s.Valid() && s.pub.numKeypers == |env.keypers| && Rank(s.phase) <= Rank(Apologizing)
    ensures Apologies(env, s, evs) == WithApologies(s, Apologies(env, s, evs))
    ensures Entry(Apologies(env, s, evs).pub.apologies, key)
      == Filled(s.pub.q, Entry(s.pub.apologies, key), AnswersTo(env, evs, key))
    decreases |evs|
  {
    if evs != [] {
      var n := |evs| - 1;
      ApologiesExact(env, s, evs[..n], key);
      var sender := FindAddressIndex(env.keypers, evs[n].msg.sender);
      if env.PhaseOf(evs[n].height) == Apologizing && sender.Some? {
        ApologyListExact(env, Apologies(env, s, evs[..n]), sender.value, evs[n].msg.apologies, key);
      }
      FilledTwice(s.pub.q, Entry(s.pub.apologies, key), AnswersTo(env, evs[..n], key), AnswersOf(env, evs[n], key));
      FilledTwice(s.pub.q, Entry(Apologies(env, s, evs[..n]).pub.apologies, key), [], []);
    }
  }

  // ----- the apology message a keyper publishes

  ghost predicate KnownAccusers(keypers: seq<Address>, msgs: seq<ApologyMsg>) {
    forall i :: 0 <= i < |msgs| ==> msgs[i].key.accuser < |keypers|
  }

  /** The accusers' addresses with the answers. */
  ghost function NewApology(keypers: seq<Address>, msgs: seq<ApologyMsg>): seq<(Address, int)>
    requires KnownAccusers(keypers, msgs)
  {
    if msgs == [] then []
    else
      var last := msgs[|msgs| - 1];
      NewApology(keypers, msgs[..|msgs| - 1]) + [(keypers[last.key.accuser], last.eval)]
  }

  /** The answers for one accuser. */
  function EvalsFor(msgs: seq<ApologyMsg>, accuser: nat): seq<int> {
    if msgs == [] then []
    else
      var last := msgs[|msgs| - 1];
      EvalsFor(msgs[..|msgs| - 1], accuser) + if last.key.accuser == accuser then [last.eval] else []
  }

  lemma {:induction false} AnswersInNewApology(env: Env, msgs: seq<ApologyMsg>, accuser: nat)
    requires Distinct(env.keypers) && KnownAccusers(env.keypers, msgs)
    ensures AnswersIn(env, NewApology(env.keypers, msgs), accuser) == EvalsFor(msgs, accuser)
    decreases |msgs|
  {
    if msgs != [] {
      var n := |msgs| - 1;
      AnswersInNewApology(env, msgs[..n], accuser);
      IndexOf(env.keypers, msgs[n].key.accuser);
      var a := NewApology(env.keypers, msgs);
      assert a[..|a| - 1] == NewApology(env.keypers, msgs[..n]);
    }
  }

  /** Every answer is the one value that is right for its accuser, and in range. */
  ghost predicate RightAnswers(q: int, msgs: seq<ApologyMsg>, right: nat -> int) {
    forall i :: 0 <= i < |msgs| ==> msgs[i].eval == right(msgs[i].key.accuser) && ValidEval(q, msgs[i].eval)
  }

  /** The first answer in range for an accuser is the right value, if there is one. */
  lemma {:induction false} FirstAnswer(q: int, msgs: seq<ApologyMsg>, right: nat -> int, accuser: nat)
    requires RightAnswers(q, msgs, right)
    ensures FirstValid(q, EvalsFor(msgs, accuser))
      == if exists i :: 0 <= i < |msgs| && msgs[i].key.accuser == accuser then Some(right(accuser)) else None
    decreases |msgs|
  {
    if msgs != [] {
      var n := |msgs| - 1;
      FirstAnswer(q, msgs[..n], right, accuser);
      assert msgs == msgs[..n] + [msgs[n]];
      FirstValidConcat(q, EvalsFor(msgs[..n], accuser), if msgs[n].key.accuser == accuser then [msgs[n].eval] else []);
      FilledOnce(q, None, msgs[n].eval);
    }
  }
}
