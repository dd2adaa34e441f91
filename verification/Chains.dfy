/** Chains that bring about what one asks for: given commitments and accusations with
    given answers, and one value for this keyper. */
module Chains {
  import opened Sets
  import opened Addresses
  import opened Outcome
  import opened Groups
  import opened Feldman
  import opened Observe
  import opened DistributedKeyGeneration
  import opened KeyperSync
  import opened Chunking
  import opened Restarts
  import Encryption

  // ----- events at one height

  predicate AllAt<T>(evs: seq<At<T>>, h: int) {
    forall i :: 0 <= i < |evs| ==> evs[i].height == h
  }

  lemma {:induction false} WindowAll<T>(evs: seq<At<T>>, height: int, h: int, c: int)
    requires AllAt(evs, height) && h <= height <= c
    ensures Window(evs, h, c) == evs
  {
    if evs != [] {
      var n := |evs| - 1;
      WindowAll(evs[..n], height, h, c);
      assert evs == evs[..n] + [evs[n]];
      WindowSnoc(evs[..n], evs[n], h, c);
    }
  }

  ghost predicate InRange(keypers: seq<Address>, keys: set<AccusationKey>) {
    forall key :: key in keys ==> key.accuser < |keypers| && key.accused < |keypers|
  }

  /** One message for every accusation. */
  ghost function AccusationEvents(keypers: seq<Address>, keys: set<AccusationKey>, h: int): (evs: seq<At<AccusationMsg>>)
    requires InRange(keypers, keys)
    ensures AllAt(evs, h)
  {
    if keys == {} then []
    else
      var key := Pick(keys);
      AccusationEvents(keypers, keys - {key}, h) + [At(h, AccusationMsg(keypers[key.accuser], [keypers[key.accused]]))]
  }

  lemma {:induction false} AccusedByEvents(env: Env, keys: set<AccusationKey>, h: int, key: AccusationKey)
    requires Distinct(env.keypers) && InRange(env.keypers, keys) && env.PhaseOf(h) == Accusing
    ensures Accused(env, AccusationEvents(env.keypers, keys, h), key) <==> key in keys
    decreases |keys|
  {
    if keys != {} {
      var k := Pick(keys);
      AccusedByEvents(env, keys - {k}, h, key);
      IndexOf(env.keypers, k.accuser);
      IndexOf(env.keypers, k.accused);
      var init, last := AccusationEvents(env.keypers, keys - {k}, h), AccusationMsg(env.keypers[k.accuser], [env.keypers[k.accused]]);
      assert last.accused[0] == env.keypers[k.accused];
      assert NamedBy(env, last, key) <==> key == k;
      AccusedSnoc(env, init, At(h, last), key);
    }
  }

  lemma AccusedSnoc(env: Env, evs: seq<At<AccusationMsg>>, e: At<AccusationMsg>, key: AccusationKey)
    ensures Accused(env, evs + [e], key)
      <==> Accused(env, evs, key) || (env.PhaseOf(e.height) == Accusing && NamedBy(env, e.msg, key))
  {
    var all := evs + [e];
    assert all[|evs|] == e;
    assert forall i :: 0 <= i < |evs| ==> all[i] == evs[i];
  }

  /** One message for every answer. */
  ghost function ApologyEvents(keypers: seq<Address>, answers: map<AccusationKey, int>, keys: set<AccusationKey>, h: int)
    : (evs: seq<At<ApologyEvent>>)
    requires InRange(keypers, keys) && keys <= answers.Keys
    ensures AllAt(evs, h)
  {
    if keys == {} then []
    else
      var key := Pick(keys);
      ApologyEvents(keypers, answers, keys - {key}, h)
      + [At(h, ApologyEvent(keypers[key.accused], [(keypers[key.accuser], answers[key])]))]
  }

  lemma {:induction false} AnswersByEvents(env: Env, answers: map<AccusationKey, int>, keys: set<AccusationKey>, h: int,
                                           key: AccusationKey)
    requires Distinct(env.keypers) && InRange(env.keypers, keys) && keys <= answers.Keys && env.PhaseOf(h) == Apologizing
    ensures AnswersTo(env, ApologyEvents(env.keypers, answers, keys, h), key) == if key in keys then [answers[key]] else []
    decreases |keys|
  {
    if keys != {} {
      var k := Pick(keys);
      AnswersByEvents(env, answers, keys - {k}, h, key);
      IndexOf(env.keypers, k.accuser);
      IndexOf(env.keypers, k.accused);
      var a := (env.keypers[k.accuser], answers[k]);
      var init, last := ApologyEvents(env.keypers, answers, keys - {k}, h), At(h, ApologyEvent(env.keypers[k.accused], [a]));
      assert (init + [last])[..|init|] == init;
      var one: seq<(Address, int)> := [a];
      assert one[..0] == [];
      assert AnswersIn(env, one, key.accuser) == OneAnswer(env, a, key.accuser);
      assert AnswersOf(env, last, key) == if key == k then [answers[k]] else [];
    }
  }

  // ----- after dealing

  /** The DKG at the end, with these accusations and apologies. */
  function Final(s: State, accusations: set<AccusationKey>, apologies: map<AccusationKey, int>): State {
    s.(phase := Finalized, pub := s.pub.(accusations := accusations, apologies := apologies))
  }

  /** What can be added to a DKG's accusations and apologies. */
  ghost predicate Extends(env: Env, s: State, accusations: set<AccusationKey>, apologies: map<AccusationKey, int>) {
    && s.pub.accusations <= accusations && InRange(env.keypers, accusations - s.pub.accusations)
    && (s.phase == Apologizing ==> accusations == s.pub.accusations)
    && (forall key :: key in s.pub.apologies ==> key in apologies && apologies[key] == s.pub.apologies[key])
    && InRange(env.keypers, apologies.Keys - s.pub.apologies.Keys)
    && (forall key :: key in apologies && key !in s.pub.apologies ==> ValidEval(s.pub.q, apologies[key]))
  }

  /** A block at which the eon is over. */
  function EndBlock(env: Env, c: int): int {
    var end := env.start + env.plen.apologizing;
    if c > end then c else end
  }

  /** The first block from c + 1 on at which accusations count. */
  function AccusingBlock(env: Env, c: int): int {
    var first := env.start + env.plen.dealing;
    if c + 1 > first then c + 1 else first
  }

  /** The first block from c + 1 on at which apologies count. */
  function ApologyBlock(env: Env, c: int): int {
    var first := env.start + env.plen.accusing;
    if c + 1 > first then c + 1 else first
  }

  lemma BlocksInPhase(env: Env, c: int, l: int)
    requires env.plen == ConstantPhaseLength(l) && l >= 1 && Rank(Dealing) <= Rank(env.PhaseOf(c + 1)) < Rank(Finalized)
    ensures c <= EndBlock(env, c) && env.PhaseOf(EndBlock(env, c) + 1) == Finalized
    ensures c + 1 <= ApologyBlock(env, c) <= EndBlock(env, c) && env.PhaseOf(ApologyBlock(env, c)) == Apologizing
    ensures Rank(env.PhaseOf(c + 1)) <= Rank(Accusing) ==>
      c + 1 <= AccusingBlock(env, c) <= EndBlock(env, c) && env.PhaseOf(AccusingBlock(env, c)) == Accusing
  {
  }

  /** The accusations and apologies that are new. */
  ghost function LateChain(env: Env, b: Broadcast, accusations: set<AccusationKey>, apologies: map<AccusationKey, int>, c: int)
    : (eon: DKGEon)
    requires InRange(env.keypers, accusations - b.accusations) && InRange(env.keypers, apologies.Keys - b.apologies.Keys)
    ensures eon.SortedLists()
  {
    Eon(0, env.start, 0, [], [],
        AccusationEvents(env.keypers, accusations - b.accusations, AccusingBlock(env, c)),
        ApologyEvents(env.keypers, apologies, apologies.Keys - b.apologies.Keys, ApologyBlock(env, c)))
  }

  /** A list of events at one height that accuses exactly as the set says. */
  ghost predicate BringsAccusations(env: Env, evs: seq<At<AccusationMsg>>, added: set<AccusationKey>, h: int) {
    && AllAt(evs, h) && (added == {} ==> evs == [])
    && forall key :: Accused(env, evs, key) <==> key in added
  }

  lemma EventsAccuse(env: Env, added: set<AccusationKey>, h: int)
    requires Distinct(env.keypers) && InRange(env.keypers, added) && (added == {} || env.PhaseOf(h) == Accusing)
    ensures BringsAccusations(env, AccusationEvents(env.keypers, added, h), added, h)
  {
    if added != {} {
      forall key
        ensures Accused(env, AccusationEvents(env.keypers, added, h), key) <==> key in added
      {
        AccusedByEvents(env, added, h, key);
      }
    }
  }

  lemma AccusationsReached(env: Env, b: State, added: set<AccusationKey>, evs: seq<At<AccusationMsg>>, h: int, from: int, to: int)
    requires b.Valid() && b.pub.numKeypers == |env.keypers| && b.phase == Off
    requires BringsAccusations(env, evs, added, h) && (added == {} || from <= h <= to)
    ensures Accusations(env, b, Window(evs, from, to)).pub.accusations == b.pub.accusations + added
  {
    if added != {} {
      WindowAll(evs, h, from, to);
    }
    forall key
      ensures key in Accusations(env, b, evs).pub.accusations <==> key in b.pub.accusations || key in added
    {
      AccusationsExact(env, b, evs, key);
    }
  }

  lemma SameEntries(a: map<AccusationKey, int>, b: map<AccusationKey, int>)
    requires forall key :: Entry(a, key) == Entry(b, key)
    ensures a == b
  {
    forall key
      ensures key in a <==> key in b
      ensures key in a ==> a[key] == b[key]
    {
      assert Entry(a, key) == Entry(b, key);
    }
  }

  /** A list of events at one height that gives exactly the answers for these keys. */
  ghost predicate BringsAnswers(env: Env, evs: seq<At<ApologyEvent>>, answers: map<AccusationKey, int>,
                                keys: set<AccusationKey>, h: int)
  {
    && AllAt(evs, h) && keys <= answers.Keys
    && forall key :: AnswersTo(env, evs, key) == if key in keys then [answers[key]] else []
  }

  lemma EventsAnswer(env: Env, answers: map<AccusationKey, int>, keys: set<AccusationKey>, h: int)
    requires Distinct(env.keypers) && InRange(env.keypers, keys) && keys <= answers.Keys && env.PhaseOf(h) == Apologizing
    ensures BringsAnswers(env, ApologyEvents(env.keypers, answers, keys, h), answers, keys, h)
  {
    forall key
      ensures AnswersTo(env, ApologyEvents(env.keypers, answers, keys, h), key) == if key in keys then [answers[key]] else []
    {
      AnswersByEvents(env, answers, keys, h, key);
    }
  }

  /** The keys are those of the apologies that are new. */
  ghost predicate NewAnswers(b: Broadcast, apologies: map<AccusationKey, int>, keys: set<AccusationKey>) {
    && (forall key :: key in apologies <==> key in b.apologies || key in keys)
    && (forall key :: key in b.apologies ==> key !in keys && key in apologies && apologies[key] == b.apologies[key])
    && (forall key :: key in keys ==> key in apologies && ValidEval(b.q, apologies[key]))
  }

  lemma ApologiesReached(env: Env, b: State, apologies: map<AccusationKey, int>, keys: set<AccusationKey>,
                         evs: seq<At<ApologyEvent>>, h: int, from: int, to: int)
    requires b.Valid() && b.pub.numKeypers == |env.keypers| && b.phase == Off && from <= h <= to
    requires BringsAnswers(env, evs, apologies, keys, h) && NewAnswers(b.pub, apologies, keys)
    ensures Apologies(env, b, Window(evs, from, to)).pub.apologies == apologies
  {
    WindowAll(evs, h, from, to);
    var t := Apologies(env, b, evs);
    forall key
      ensures Entry(t.pub.apologies, key) == Entry(apologies, key)
    {
      ApologiesExact(env, b, evs, key);
      if key in keys {
        FilledOnce(b.pub.q, None, apologies[key]);
      } else {
        FilledTwice(b.pub.q, Entry(b.pub.apologies, key), [], []);
      }
    }
    SameEntries(t.pub.apologies, apologies);
  }

  lemma LateStepIs(env: Env, s: State, eon: DKGEon, accusations: set<AccusationKey>, apologies: map<AccusationKey, int>,
                   c: int, c': int)
    requires s.Valid() && s.pub.numKeypers == |env.keypers| && c <= c' && env.PhaseOf(c' + 1) == Finalized
    requires s.phase == env.PhaseOf(c + 1) && Rank(Dealing) < Rank(s.phase)
    requires LateFeeds(env, s, eon, c, c', accusations, apologies)
    ensures SyncDKG(env, s, eon, c + 1, c') == Final(s, accusations, apologies)
  {
    LateStep(env, s, eon, c, c');
  }

  ghost predicate InEon(env: Env, s: State, c: int, l: int) {
    && s.Valid() && s.pub.numKeypers == |env.keypers| && Distinct(env.keypers)
    && env.plen == ConstantPhaseLength(l) && l >= 1
    && s.phase == env.PhaseOf(c + 1) && Rank(Dealing) <= Rank(s.phase) < Rank(Finalized)
  }

  ghost predicate AfterDealing(env: Env, s: State, c: int, l: int) {
    InEon(env, s, c, l) && Rank(Dealing) < Rank(s.phase)
  }

  lemma LateAccusations(env: Env, s: State, added: set<AccusationKey>, c: int, l: int, evs: seq<At<AccusationMsg>>)
    requires InEon(env, s, c, l) && (s.phase == Apologizing ==> added == {})
    requires BringsAccusations(env, evs, added, AccusingBlock(env, c))
    ensures Accusations(env, AsOff(s), Window(evs, c + 1, EndBlock(env, c))).pub.accusations == s.pub.accusations + added
  {
    BlocksInPhase(env, c, l);
    AccusationsReached(env, AsOff(s), added, evs, AccusingBlock(env, c), c + 1, EndBlock(env, c));
  }

  lemma LateApologies(env: Env, s: State, apologies: map<AccusationKey, int>, keys: set<AccusationKey>,
                      c: int, l: int, evs: seq<At<ApologyEvent>>)
    requires InEon(env, s, c, l) && NewAnswers(s.pub, apologies, keys)
    requires BringsAnswers(env, evs, apologies, keys, ApologyBlock(env, c))
    ensures Apologies(env, AsOff(s), Window(evs, c + 1, EndBlock(env, c))).pub.apologies == apologies
  {
    BlocksInPhase(env, c, l);
    ApologiesReached(env, AsOff(s), apologies, keys, evs, ApologyBlock(env, c), c + 1, EndBlock(env, c));
  }

  /** What a late step reads from the two lists that still count. */
  ghost predicate LateFeeds(env: Env, s: State, eon: DKGEon, c: int, c': int, accusations: set<AccusationKey>,
                            apologies: map<AccusationKey, int>)
    requires s.Valid() && s.pub.numKeypers == |env.keypers|
  {
    && Accusations(env, AsOff(s), Window(eon.accusations, c + 1, c')).pub.accusations == accusations
    && Apologies(env, AsOff(s), Window(eon.apologies, c + 1, c')).pub.apologies == apologies
  }

  /** What the chain brings. */
  lemma ChainBrings(env: Env, s: State, accusations: set<AccusationKey>, apologies: map<AccusationKey, int>, c: int, l: int)
    requires InEon(env, s, c, l) && Extends(env, s, accusations, apologies)
    ensures var added, keys := accusations - s.pub.accusations, apologies.Keys - s.pub.apologies.Keys;
      && BringsAccusations(env, AccusationEvents(env.keypers, added, AccusingBlock(env, c)), added, AccusingBlock(env, c))
      && BringsAnswers(env, ApologyEvents(env.keypers, apologies, keys, ApologyBlock(env, c)), apologies, keys,
                       ApologyBlock(env, c))
      && s.pub.accusations + added == accusations && NewAnswers(s.pub, apologies, keys)
      && (s.phase == Apologizing ==> added == {})
  {
    BlocksInPhase(env, c, l);
    EventsAccuse(env, accusations - s.pub.accusations, AccusingBlock(env, c));
    EventsAnswer(env, apologies, apologies.Keys - s.pub.apologies.Keys, ApologyBlock(env, c));
  }

  lemma ChainFeeds(env: Env, s: State, accusations: set<AccusationKey>, apologies: map<AccusationKey, int>,
                   c: int, l: int, eon: DKGEon)
    requires InEon(env, s, c, l) && Extends(env, s, accusations, apologies)
    requires var late := LateChain(env, s.pub, accusations, apologies, c);
      eon.accusations == late.accusations && eon.apologies == late.apologies
    ensures LateFeeds(env, s, eon, c, EndBlock(env, c), accusations, apologies)
  {
    var added, keys := accusations - s.pub.accusations, apologies.Keys - s.pub.apologies.Keys;
    ChainBrings(env, s, accusations, apologies, c, l);
    LateAccusations(env, s, added, c, l, eon.accusations);
    LateApologies(env, s, apologies, keys, c, l, eon.apologies);
  }

  /** After dealing, whatever may be added can be brought about. */
  lemma LateReached(env: Env, s: State, accusations: set<AccusationKey>, apologies: map<AccusationKey, int>,
                    c: int, l: int, eon: DKGEon)
    requires AfterDealing(env, s, c, l) && Extends(env, s, accusations, apologies)
    requires eon == LateChain(env, s.pub, accusations, apologies, c)
    ensures SyncDKG(env, s, eon, c + 1, EndBlock(env, c)) == Final(s, accusations, apologies)
  {
    BlocksInPhase(env, c, l);
    ChainFeeds(env, s, accusations, apologies, c, l, eon);
    LateStepIs(env, s, eon, accusations, apologies, c, EndBlock(env, c));
  }

  /** And nothing else can happen. */
  lemma LateExtends(env: Env, s: State, eon: DKGEon, c: int, c': int)
    requires s.Valid() && s.pub.numKeypers == |env.keypers| && c <= c'
    requires s.phase == env.PhaseOf(c + 1) && Rank(Dealing) < Rank(s.phase) && env.PhaseOf(c' + 1) == Finalized
    ensures var t := SyncDKG(env, s, eon, c + 1, c');
      t == Final(s, t.pub.accusations, t.pub.apologies) && Extends(env, s, t.pub.accusations, t.pub.apologies)
  {
    LateStep(env, s, eon, c, c');
    LateStepGrows(env, s, eon, c, c');
    var b, t := AsOff(s), SyncDKG(env, s, eon, c + 1, c');
    var wa, wp := Window(eon.accusations, c + 1, c'), Window(eon.apologies, c + 1, c');
    forall key | key in t.pub.accusations && key !in s.pub.accusations
      ensures key.accuser < |env.keypers| && key.accused < |env.keypers|
    {
      AccusationsExact(env, b, wa, key);
    }
    if s.phase == Apologizing {
      WindowHeights(eon.accusations, c + 1, c');
      WithoutBelow(env, wa, c + 1, c', Accusing);
      AccusationsSkip(env, b, wa);
    }
    forall key | key in t.pub.apologies && key !in s.pub.apologies
      ensures key.accuser < |env.keypers| && key.accused < |env.keypers| && ValidEval(s.pub.q, t.pub.apologies[key])
    {
      ApologiesExact(env, b, wp, key);
      AnswersFromKeypers(env, wp, key);
      FirstValidIsValid(s.pub.q, AnswersTo(env, wp, key));
    }
  }

  lemma {:induction false} FirstValidIsValid(q: int, vs: seq<int>)
    ensures FirstValid(q, vs).Some? ==> vs != [] && ValidEval(q, FirstValid(q, vs).value)
  {
    if vs != [] {
      FirstValidIsValid(q, vs[1..]);
    }
  }

  lemma {:induction false} AnswersFromKeypers(env: Env, evs: seq<At<ApologyEvent>>, key: AccusationKey)
    ensures AnswersTo(env, evs, key) != [] ==> key.accuser < |env.keypers| && key.accused < |env.keypers|
    decreases |evs|
  {
    if evs != [] {
      var n := |evs| - 1;
      AnswersFromKeypers(env, evs[..n], key);
      AnswersInFromKeypers(env, evs[n].msg.apologies, key.accuser);
    }
  }

  lemma {:induction false} AnswersInFromKeypers(env: Env, apologies: seq<(Address, int)>, accuser: nat)
    ensures AnswersIn(env, apologies, accuser) != [] ==> accuser < |env.keypers|
    decreases |apologies|
  {
    if apologies != [] {
      AnswersInFromKeypers(env, apologies[..|apologies| - 1], accuser);
    }
  }

  // ----- while dealing

  /** The commitments of the first n dealers. */
  function CommitmentEvents(eon: nat, keypers: seq<Address>, gs: seq<Gammas>, n: nat, h: int): (evs: seq<At<CommitmentMsg>>)
    requires n <= |keypers| == |gs|
    ensures AllAt(evs, h)
  {
    if n == 0 then []
    else CommitmentEvents(eon, keypers, gs, n - 1, h) + [At(h, CommitmentMsg(eon, keypers[n - 1], gs[n - 1]))]
  }

  lemma {:induction false} FirstOfAll(env: Env, s: State, gs: seq<Gammas>, n: nat, h: int, e: nat)
    requires n <= |env.keypers| == |gs| && Distinct(env.keypers) && env.PhaseOf(h) == Dealing
    requires forall i :: 0 <= i < |gs| ==> Degree(gs[i]) == DegreeFromThreshold(s.pub.threshold)
    ensures FirstCommitment(env, s, CommitmentEvents(s.eon, env.keypers, gs, n, h), e)
         == if e < n then Some(gs[e]) else None
    decreases n
  {
    if n == 0 {
      assert FirstCommitment(env, s, [], e) == None;
    } else {
      FirstOfAll(env, s, gs, n - 1, h, e);
      IndexOf(env.keypers, n - 1);
      FirstCommitmentSnoc(env, s, CommitmentEvents(s.eon, env.keypers, gs, n - 1, h),
                          At(h, CommitmentMsg(s.eon, env.keypers[n - 1], gs[n - 1])), e);
    }
  }

  /** Missing commitments filled in. */
  function Completed(cs: seq<Option<Gammas>>, gs: seq<Gammas>): (r: seq<Option<Gammas>>)
    requires |cs| == |gs|
    ensures |r| == |cs| && forall i :: 0 <= i < |r| ==> r[i] == if cs[i].Some? then cs[i] else Some(gs[i])
  {
    seq(|cs|, i requires 0 <= i < |cs| => if cs[i].Some? then cs[i] else Some(gs[i]))
  }

  lemma CommitmentsReached(env: Env, b: State, gs: seq<Gammas>, h: int, to: int)
    requires b.Valid() && b.pub.numKeypers == |env.keypers| == |gs| && b.phase == Off && Distinct(env.keypers)
    requires env.PhaseOf(h) == Dealing && h <= to
    requires forall i :: 0 <= i < |gs| ==> Degree(gs[i]) == DegreeFromThreshold(b.pub.threshold)
    ensures Commitments(env, b, Window(CommitmentEvents(b.eon, env.keypers, gs, |gs|, h), h, to)).pub.commitments
         == Completed(b.pub.commitments, gs)
  {
    var evs := CommitmentEvents(b.eon, env.keypers, gs, |gs|, h);
    WindowAll(evs, h, h, to);
    var r := Commitments(env, b, evs).pub.commitments;
    if |gs| > 0 {
      CommitmentsExact(env, b, evs, 0);
    }
    forall e | 0 <= e < |gs|
      ensures r[e] == Completed(b.pub.commitments, gs)[e]
    {
      CommitmentsExact(env, b, evs, e);
      FirstOfAll(env, b, gs, |gs|, h, e);
    }
  }

  /** A value for keyper k from dealer d, or none. */
  function ValueEvents(eon: nat, keypers: seq<Address>, k: nat, d: nat, cipher: Option<Encryption.Bytes>, h: int)
    : (evs: seq<At<EvalMsg>>)
    requires k < |keypers| && d < |keypers|
    ensures AllAt(evs, h)
  {
    if cipher.None? then [] else [At(h, EvalMsg(eon, keypers[d], [(keypers[k], cipher.value)]))]
  }

  function Read(env: Env, cipher: Option<Encryption.Bytes>): (v: Option<int>) {
    if cipher.None? || env.decrypt(cipher.value).None? then None
    else Some(Encryption.SetBytes(env.decrypt(cipher.value).value))
  }

  lemma ValueByEvents(env: Env, s: State, d: nat, cipher: Option<Encryption.Bytes>, h: int, e: nat)
    requires Distinct(env.keypers) && env.PhaseOf(h) == Dealing
    requires d < |env.keypers| && s.keyper < |env.keypers| && (cipher.Some? ==> d != s.keyper)
    ensures ValuesFrom(env, s, ValueEvents(s.eon, env.keypers, s.keyper, d, cipher, h), e)
         == if e == d && Read(env, cipher).Some? then [Read(env, cipher).value] else []
  {
    var evs := ValueEvents(s.eon, env.keypers, s.keyper, d, cipher, h);
    if cipher.Some? {
      IndexOf(env.keypers, d);
      IndexOf(env.keypers, s.keyper);
      var es: seq<(Address, Encryption.Bytes)> := [(env.keypers[s.keyper], cipher.value)];
      assert es[..0] == [] && evs[..0] == [];
      assert ValuesIn(env, s.keyper, es) == OneValue(env, s.keyper, es[0]);
      assert ValuesFrom(env, s, evs, e) == ValuesOf(env, s, evs[0], e);
    }
  }

  /** The values with one filled in. */
  function WithValue(es: seq<Option<int>>, d: nat, v: Option<int>): (r: seq<Option<int>>)
    requires d < |es|
    ensures |r| == |es| && forall i :: 0 <= i < |es| ==> r[i] == if i == d && es[i].None? then v else es[i]
  {
    if es[d].None? then es[d := v] else es
  }

  lemma ValueReached(env: Env, b: State, d: nat, cipher: Option<Encryption.Bytes>, h: int, to: int)
    requires b.Valid() && b.pub.numKeypers == |env.keypers| && b.phase == Off && Distinct(env.keypers)
    requires env.PhaseOf(h) == Dealing && h <= to && d < |env.keypers| && (cipher.Some? ==> d != b.keyper)
    requires Read(env, cipher).Some? ==> ValidEval(b.pub.q, Read(env, cipher).value)
    ensures PolyEvals(env, b, Window(ValueEvents(b.eon, env.keypers, b.keyper, d, cipher, h), h, to)).evals
         == WithValue(b.evals, d, Read(env, cipher))
  {
    var evs, v := ValueEvents(b.eon, env.keypers, b.keyper, d, cipher, h), Read(env, cipher);
    WindowAll(evs, h, h, to);
    var r := PolyEvals(env, b, evs).evals;
    forall e | 0 <= e < |b.evals|
      ensures |r| == |b.evals| && r[e] == WithValue(b.evals, d, v)[e]
    {
      PolyEvalsExact(env, b, evs, e);
      ValueByEvents(env, b, d, cipher, h, e);
      FilledTwice(b.pub.q, b.evals[e], [], []);
      if v.Some? {
        FilledOnce(b.pub.q, b.evals[e], v.value);
      }
    }
  }

  /** All dealers publish commitments, d may send a value, and the accusations are answered. */
  ghost function DealingChain(env: Env, s: State, gs: seq<Gammas>, d: nat, cipher: Option<Encryption.Bytes>,
                              answers: map<AccusationKey, int>, c: int): (r: DKGEon)
    requires |gs| == |env.keypers| && s.keyper < |env.keypers| && d < |env.keypers| && InRange(env.keypers, answers.Keys)
    ensures r.SortedLists()
  {
    var late := LateChain(env, s.pub, answers.Keys, answers, c);
    Eon(s.eon, env.start, 0,
        CommitmentEvents(s.eon, env.keypers, gs, |gs|, c + 1),
        ValueEvents(s.eon, env.keypers, s.keyper, d, cipher, c + 1),
        late.accusations, late.apologies)
  }

  /** The DKG at the end, with these lists. */
  function Ended(s: State, cs: seq<Option<Gammas>>, es: seq<Option<int>>, accusations: set<AccusationKey>,
                 apologies: map<AccusationKey, int>): State
  {
    s.(phase := Finalized, evals := es, pub := s.pub.(commitments := cs, accusations := accusations, apologies := apologies))
  }

  /** The DKG at the end of such a chain. */
  function Played(s: State, gs: seq<Gammas>, d: nat, v: Option<int>, answers: map<AccusationKey, int>): (t: State)
    requires s.Valid() && |gs| == s.pub.numKeypers && d < s.pub.numKeypers
    ensures t.Valid()
  {
    Ended(s, Completed(s.pub.commitments, gs), WithValue(s.evals, d, v), answers.Keys, answers)
  }

  ghost predicate StillDealing(env: Env, s: State, c: int, l: int) {
    InEon(env, s, c, l) && s.phase == Dealing && s.pub.accusations == {} && s.pub.apologies == map[]
  }

  ghost predicate Publishable(env: Env, s: State, gs: seq<Gammas>, d: nat, cipher: Option<Encryption.Bytes>,
                              answers: map<AccusationKey, int>)
    requires s.pub.q > 0
  {
    && |gs| == |env.keypers| && (forall i :: 0 <= i < |gs| ==> Degree(gs[i]) == DegreeFromThreshold(s.pub.threshold))
    && d < |env.keypers| && (cipher.Some? ==> d != s.keyper) && (Read(env, cipher).Some? ==> ValidEval(s.pub.q, Read(env, cipher).value))
    && InRange(env.keypers, answers.Keys) && (forall key :: key in answers ==> ValidEval(s.pub.q, answers[key]))
  }

  /** What a step reads from each list. */
  ghost predicate Feeds(env: Env, s: State, eon: DKGEon, c: int, c': int, cs: seq<Option<Gammas>>, es: seq<Option<int>>,
                        accusations: set<AccusationKey>, apologies: map<AccusationKey, int>)
    requires s.Valid() && s.pub.numKeypers == |env.keypers|
  {
    && Commitments(env, AsOff(s), Window(eon.commitments, c + 1, c')).pub.commitments == cs
    && PolyEvals(env, AsOff(s), Window(eon.polyEvals, c + 1, c')).evals == es
    && Accusations(env, AsOff(s), Window(eon.accusations, c + 1, c')).pub.accusations == accusations
    && Apologies(env, AsOff(s), Window(eon.apologies, c + 1, c')).pub.apologies == apologies
  }

  lemma CommitmentFeed(env: Env, s: State, gs: seq<Gammas>, c: int, to: int, evs: seq<At<CommitmentMsg>>)
    requires s.Valid() && s.pub.numKeypers == |env.keypers| == |gs| && Distinct(env.keypers)
    requires env.PhaseOf(c + 1) == Dealing && c + 1 <= to
    requires forall i :: 0 <= i < |gs| ==> Degree(gs[i]) == DegreeFromThreshold(s.pub.threshold)
    requires evs == CommitmentEvents(s.eon, env.keypers, gs, |gs|, c + 1)
    ensures Commitments(env, AsOff(s), Window(evs, c + 1, to)).pub.commitments == Completed(s.pub.commitments, gs)
  {
    CommitmentsReached(env, AsOff(s), gs, c + 1, to);
  }

  lemma ValueFeed(env: Env, s: State, d: nat, cipher: Option<Encryption.Bytes>, c: int, to: int, evs: seq<At<EvalMsg>>)
    requires s.Valid() && s.pub.numKeypers == |env.keypers| && Distinct(env.keypers)
    requires env.PhaseOf(c + 1) == Dealing && c + 1 <= to && d < |env.keypers| && (cipher.Some? ==> d != s.keyper)
    requires Read(env, cipher).Some? ==> ValidEval(s.pub.q, Read(env, cipher).value)
    requires evs == ValueEvents(s.eon, env.keypers, s.keyper, d, cipher, c + 1)
    ensures PolyEvals(env, AsOff(s), Window(evs, c + 1, to)).evals == WithValue(s.evals, d, Read(env, cipher))
  {
    ValueReached(env, AsOff(s), d, cipher, c + 1, to);
  }

  lemma DealingFeeds(env: Env, s: State, gs: seq<Gammas>, d: nat, cipher: Option<Encryption.Bytes>,
                     answers: map<AccusationKey, int>, c: int, l: int, eon: DKGEon)
    requires StillDealing(env, s, c, l) && Publishable(env, s, gs, d, cipher, answers)
    requires eon == DealingChain(env, s, gs, d, cipher, answers, c)
    ensures Feeds(env, s, eon, c, EndBlock(env, c), Completed(s.pub.commitments, gs),
                  WithValue(s.evals, d, Read(env, cipher)), answers.Keys, answers)
  {
    BlocksInPhase(env, c, l);
    CommitmentFeed(env, s, gs, c, EndBlock(env, c), eon.commitments);
    ValueFeed(env, s, d, cipher, c, EndBlock(env, c), eon.polyEvals);
    ChainFeeds(env, s, answers.Keys, answers, c, l, eon);
  }

  lemma StepByParts(env: Env, s: State, eon: DKGEon, c: int, c': int, cs: seq<Option<Gammas>>, es: seq<Option<int>>,
                    accusations: set<AccusationKey>, apologies: map<AccusationKey, int>)
    requires s.Valid() && s.pub.numKeypers == |env.keypers| && c <= c' && s.phase == env.PhaseOf(c + 1) == Dealing
    requires env.PhaseOf(c' + 1) == Finalized && Feeds(env, s, eon, c, c', cs, es, accusations, apologies)
    ensures SyncDKG(env, s, eon, c + 1, c') == Ended(s, cs, es, accusations, apologies)
  {
    SyncByParts(env, s, eon, c + 1, c');
  }

  lemma FeedsPlayed(env: Env, s: State, gs: seq<Gammas>, d: nat, v: Option<int>, answers: map<AccusationKey, int>,
                    c: int, l: int, eon: DKGEon)
    requires StillDealing(env, s, c, l) && |gs| == |env.keypers| && d < |gs|
    requires Feeds(env, s, eon, c, EndBlock(env, c), Completed(s.pub.commitments, gs), WithValue(s.evals, d, v),
                   answers.Keys, answers)
    ensures SyncDKG(env, s, eon, c + 1, EndBlock(env, c)) == Played(s, gs, d, v, answers)
  {
    BlocksInPhase(env, c, l);
    StepByParts(env, s, eon, c, EndBlock(env, c), Completed(s.pub.commitments, gs), WithValue(s.evals, d, v),
                answers.Keys, answers);
  }

  lemma DealingReached(env: Env, s: State, gs: seq<Gammas>, d: nat, cipher: Option<Encryption.Bytes>,
                       answers: map<AccusationKey, int>, c: int, l: int, eon: DKGEon)
    requires StillDealing(env, s, c, l) && Publishable(env, s, gs, d, cipher, answers)
    requires eon == DealingChain(env, s, gs, d, cipher, answers, c)
    ensures SyncDKG(env, s, eon, c + 1, EndBlock(env, c)) == Played(s, gs, d, Read(env, cipher), answers)
  {
    DealingFeeds(env, s, gs, d, cipher, answers, c, l, eon);
    FeedsPlayed(env, s, gs, d, Read(env, cipher), answers, c, l, eon);
  }
}
