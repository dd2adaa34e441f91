/** The observer's list of eons, built from the application's events: producer and
    observer agree on which eons there are. */
module Eons {
  import opened Outcome
  import opened Observe
  import opened ShielderApps
  import opened AppRuns
  import opened Widths
  import Validators

  /** An observed eon with the payloads of its DKG messages. */
  type EonView = Observe.Eon<nat, nat, nat, nat>

  predicate Increasing(eons: seq<EonView>) {
    forall i, j :: 0 <= i < j < |eons| ==> eons[i].eon < eons[j].eon
  }

  // ----- looking up eons

  /** Go's sort.Search over the condition "eon <= eons[i].Eon". */
  method SearchEon(eons: seq<EonView>, eon: nat) returns (idx: nat)
    requires Increasing(eons)
    ensures idx <= |eons|
    ensures forall i :: 0 <= i < idx ==> eons[i].eon < eon
    ensures forall i :: idx <= i < |eons| ==> eons[i].eon >= eon
  {
    var i, j := 0, |eons|;
    while i < j
      invariant 0 <= i <= j <= |eons|
      invariant forall k :: 0 <= k < i ==> eons[k].eon < eon
      invariant forall k :: j <= k < |eons| ==> eons[k].eon >= eon
    {
      var m := (i + j) / 2;
      if !(eon <= eons[m].eon) {
        i := m + 1;
      } else {
        j := m;
      }
    }
    return i;
  }

  /** The eon's first position, by looking at one eon after the other. */
  function FindEon(eons: seq<EonView>, eon: nat): (r: Option<nat>)
    ensures r.Some? ==> r.value < |eons| && eons[r.value].eon == eon
    ensures r.None? ==> forall i :: 0 <= i < |eons| ==> eons[i].eon != eon
  {
    if eons == [] then None
    else if eons[0].eon == eon then Some(0)
    else
      var r := FindEon(eons[1..], eon);
      if r.Some? then Some(r.value + 1) else None
  }

  /** The binary search finds what the linear one would. */
  method FindEonBinary(eons: seq<EonView>, eon: nat) returns (r: Option<nat>)
    requires Increasing(eons)
    ensures r == FindEon(eons, eon)
  {
    var idx := SearchEon(eons, eon);
    if idx == |eons| || eon < eons[idx].eon {
      return None;
    }
    return Some(idx);
  }

  // ----- events

  function WithMessage(e: EonView, kind: MessageKind, msg: At<nat>): EonView {
    match kind
    case Commitment => e.(commitments := e.commitments + [msg])
    case Eval => e.(polyEvals := e.polyEvals + [msg])
    case Accusation => e.(accusations := e.accusations + [msg])
    case Apology => e.(apologies := e.apologies + [msg])
  }

  /** The eons after an event, or an error that leaves them alone. */
  function ApplyEvent(eons: seq<EonView>, ev: At<Event>): Result<seq<EonView>> {
    match ev.msg
    case EonStarted(eon, batchIndex) =>
      if exists i :: 0 <= i < |eons| && eons[i].eon >= eon then Err("eons should increase")
      else Ok(eons + [Eon(eon, ev.height, batchIndex, [], [], [], [])])
    case DKGMessage(eon, kind, payload) =>
      var i := FindEon(eons, eon);
      if i.None? then Err("eon not found")
      else Ok(eons[i.value := WithMessage(eons[i.value], kind, At(ev.height, payload))])
    case ConfigAdded(_) => Ok(eons)
    case CheckedIn(_, _) => Ok(eons)
  }

  /** What an observer has read of the chain. */
  class Shielder {
    var eons: seq<EonView>
    var batchConfigs: seq<Config>
    var keyperEncryptionKeys: map<nat, EncryptionKey>

    constructor ()
      ensures eons == [] && batchConfigs == [] && keyperEncryptionKeys == map[]
    {
      eons, batchConfigs, keyperEncryptionKeys := [], [], map[];
    }

    /** Errors are only logged by the source, so an event with an error is lost. */
    method ApplyOne(ev: At<Event>) returns (err: Option<string>)
      requires Increasing(eons)
      modifies this
      ensures Increasing(eons)
      ensures batchConfigs == if ev.msg.ConfigAdded? then old(batchConfigs) + [ev.msg.config] else old(batchConfigs)
      ensures keyperEncryptionKeys
           == if ev.msg.CheckedIn? then old(keyperEncryptionKeys)[ev.msg.sender := ev.msg.key] else old(keyperEncryptionKeys)
      ensures ApplyEvent(old(eons), ev) == if err.None? then Ok(eons) else Err(err.value)
      ensures err.Some? ==> eons == old(eons)
    {
      match ev.msg {
        case EonStarted(eon, batchIndex) =>
          var idx := SearchEon(eons, eon);
          if idx < |eons| {
            assert eons[idx].eon >= eon;
            return Some("eons should increase");
          }
          eons := eons + [Eon(eon, ev.height, batchIndex, [], [], [], [])];
        case DKGMessage(eon, kind, payload) =>
          var i := FindEonBinary(eons, eon);
          if i.None? {
            return Some("eon not found");
          }
          eons := eons[i.value := WithMessage(eons[i.value], kind, At(ev.height, payload))];
        case ConfigAdded(config) =>
          batchConfigs := batchConfigs + [config];
        case CheckedIn(sender, key) =>
          keyperEncryptionKeys := keyperEncryptionKeys[sender := key];
      }
      return None;
    }
  }

  // ----- producer and observer agree

  /** What an observer that syncs from genesis makes of a log. */
  function Observed(log: seq<At<Event>>): Result<seq<EonView>> {
    if log == [] then Ok([])
    else
      var r := Observed(log[..|log| - 1]);
      if r.Ok? then ApplyEvent(r.value, log[|log| - 1]) else r
  }

  /** The messages of one kind for one eon, in the order of the log. */
  function Messages(log: seq<At<Event>>, eon: nat, kind: MessageKind): seq<At<nat>> {
    if log == [] then []
    else
      var e := log[|log| - 1];
      Messages(log[..|log| - 1], eon, kind)
      + if e.msg.DKGMessage? && e.msg.eon == eon && e.msg.kind == kind then [At(e.height, e.msg.payload)] else []
  }

  ghost predicate Faithful(e: EonView, log: seq<At<Event>>) {
    && e.commitments == Messages(log, e.eon, Commitment)
    && e.polyEvals == Messages(log, e.eon, Eval)
    && e.accusations == Messages(log, e.eon, Accusation)
    && e.apologies == Messages(log, e.eon, Apology)
  }

  /** The list holds eons 1, 2, 3, ..., each with all of its messages. */
  ghost predicate Agrees(eons: seq<EonView>, log: seq<At<Event>>) {
    && |eons| == StartedEons(log)
    && (forall i :: 0 <= i < |eons| ==> eons[i].eon == i + 1)
    && forall i :: 0 <= i < |eons| ==> Faithful(eons[i], log)
  }

  lemma {:induction false} NoMessagesYet(log: seq<At<Event>>, eon: nat, kind: MessageKind)
    requires WellNumbered(log) && eon > StartedEons(log)
    ensures Messages(log, eon, kind) == []
  {
    if log != [] {
      var n := |log| - 1;
      PrefixNumbered(log, n);
      assert Fits(log[..n], log[n].msg);
      NoMessagesYet(log[..n], eon, kind);
    }
  }

  lemma PrefixNumbered(log: seq<At<Event>>, n: nat)
    requires WellNumbered(log) && n <= |log|
    ensures WellNumbered(log[..n])
  {
    forall i | 0 <= i < n
      ensures Fits(log[..n][..i], log[..n][i].msg)
    {
      assert log[..n][..i] == log[..i];
    }
  }

  lemma FindNumbered(eons: seq<EonView>, eon: nat)
    requires forall i :: 0 <= i < |eons| ==> eons[i].eon == i + 1
    requires 1 <= eon <= |eons|
    ensures FindEon(eons, eon) == Some(eon - 1)
  {
    var r := FindEon(eons, eon);
    assert eons[eon - 1].eon == eon;
  }

  /** The event does not belong to the eon. */
  lemma FaithfulLater(e: EonView, log: seq<At<Event>>, ev: At<Event>)
    requires Faithful(e, log) && !(ev.msg.DKGMessage? && ev.msg.eon == e.eon)
    ensures Faithful(e, log + [ev])
  {
    assert (log + [ev])[..|log|] == log;
  }

  lemma FaithfulWith(e: EonView, log: seq<At<Event>>, ev: At<Event>)
    requires Faithful(e, log) && ev.msg.DKGMessage? && ev.msg.eon == e.eon
    ensures Faithful(WithMessage(e, ev.msg.kind, At(ev.height, ev.msg.payload)), log + [ev])
  {
    assert (log + [ev])[..|log|] == log;
  }

  lemma StartAgrees(eons: seq<EonView>, log: seq<At<Event>>, ev: At<Event>)
    requires WellNumbered(log) && Agrees(eons, log) && Fits(log, ev.msg) && ev.msg.EonStarted?
    ensures ApplyEvent(eons, ev).Ok? && Agrees(ApplyEvent(eons, ev).value, log + [ev])
  {
    var e := Eon(ev.msg.eon, ev.height, ev.msg.batchIndex, [], [], [], []);
    var r := eons + [e];
    assert (log + [ev])[..|log|] == log;
    NoMessagesYet(log, e.eon, Commitment);
    NoMessagesYet(log, e.eon, Eval);
    NoMessagesYet(log, e.eon, Accusation);
    NoMessagesYet(log, e.eon, Apology);
    forall i | 0 <= i < |r|
      ensures Faithful(r[i], log + [ev])
    {
      FaithfulLater(r[i], log, ev);
    }
  }

  lemma MessageAgrees(eons: seq<EonView>, log: seq<At<Event>>, ev: At<Event>)
    requires Agrees(eons, log) && Fits(log, ev.msg) && ev.msg.DKGMessage?
    ensures ApplyEvent(eons, ev).Ok? && Agrees(ApplyEvent(eons, ev).value, log + [ev])
  {
    FindNumbered(eons, ev.msg.eon);
    assert (log + [ev])[..|log|] == log;
    var r := ApplyEvent(eons, ev).value;
    forall i | 0 <= i < |r|
      ensures Faithful(r[i], log + [ev])
    {
      if ev.msg.eon == i + 1 {
        FaithfulWith(eons[i], log, ev);
      } else {
        FaithfulLater(eons[i], log, ev);
      }
    }
  }

  lemma ApplyAgrees(eons: seq<EonView>, log: seq<At<Event>>, ev: At<Event>)
    requires WellNumbered(log) && Agrees(eons, log) && Fits(log, ev.msg)
    ensures ApplyEvent(eons, ev).Ok? && Agrees(ApplyEvent(eons, ev).value, log + [ev])
  {
    if ev.msg.EonStarted? {
      StartAgrees(eons, log, ev);
    } else if ev.msg.DKGMessage? {
      MessageAgrees(eons, log, ev);
    } else {
      assert (log + [ev])[..|log|] == log;
      forall i | 0 <= i < |eons|
        ensures Faithful(eons[i], log + [ev])
      {
        FaithfulLater(eons[i], log, ev);
      }
    }
  }

  /** On a well-numbered log the observer never meets an error. */
  lemma {:induction false} ObserverAgrees(log: seq<At<Event>>)
    requires WellNumbered(log)
    ensures Observed(log).Ok? && Agrees(Observed(log).value, log)
  {
    if log != [] {
      var n := |log| - 1;
      PrefixNumbered(log, n);
      ObserverAgrees(log[..n]);
      assert Fits(log[..n], log[n].msg);
      ApplyAgrees(Observed(log[..n]).value, log[..n], log[n]);
      assert log[..n] + [log[n]] == log;
    }
  }

  lemma {:induction false} MessagesSorted(log: seq<At<Event>>, eon: nat, kind: MessageKind)
    requires Sorted(log)
    ensures Sorted(Messages(log, eon, kind))
    ensures forall i :: 0 <= i < |Messages(log, eon, kind)| && log != [] ==>
      Messages(log, eon, kind)[i].height <= log[|log| - 1].height
  {
    if log != [] {
      MessagesSorted(log[..|log| - 1], eon, kind);
    }
  }

  /** In every run of the app an observer that syncs from genesis applies every event
      without error, its eons are 1, 2, 3, ... in strictly increasing order, and each
      has all its messages, sorted by height. */
  lemma ProducerObserverAgree(keypers: seq<nat>, threshold: uint64, genesis: seq<Validators.ValidatorUpdate>,
                              ops: seq<Op>, placeholder: Validators.Key)
    requires EnsureValid(GenesisConfig(keypers, threshold))
    ensures var chain := Exec(Start(keypers, threshold, genesis), ops, placeholder);
      && Observed(chain.log).Ok?
      && Agrees(Observed(chain.log).value, chain.log)
      && Increasing(Observed(chain.log).value)
      && |Observed(chain.log).value| == chain.app.eonCounter
      && forall i :: 0 <= i < |Observed(chain.log).value| ==> Observed(chain.log).value[i].SortedLists()
  {
    GenesisOk(keypers, threshold, genesis);
    ExecKeepsLogOk(Start(keypers, threshold, genesis), ops, placeholder);
    var log := Exec(Start(keypers, threshold, genesis), ops, placeholder).log;
    ObserverAgrees(log);
    forall i | 0 <= i < |Observed(log).value|
      ensures Observed(log).value[i].SortedLists()
    {
      MessagesSorted(log, i + 1, Commitment);
      MessagesSorted(log, i + 1, Eval);
      MessagesSorted(log, i + 1, Accusation);
      MessagesSorted(log, i + 1, Apology);
      assert Faithful(Observed(log).value[i], log);
    }
  }
}
