/** The replicated application: votes on batch configs and on the start of eons, and
    the validator set that follows. */
module ShielderApps {
  import opened Outcome
  import opened Addresses
  import opened Widths
  import opened Configs
  import opened Voting
  import opened Validators
  import opened Observe

  datatype Config = Config(
    startBatchIndex: uint64,
    keypers: seq<Address>,
    threshold: uint64,
    configContract: Address,
    configIndex: uint64,
    started: bool,
    validatorsUpdated: bool)

  datatype MessageKind = Commitment | Eval | Accusation | Apology

  type EncryptionKey = nat

  /** The keys that a keyper checks in with. */
  datatype CheckInKeys = CheckInKeys(validator: Key, encryption: EncryptionKey)

  /** Messages after parsing; what could not be parsed is None. A DKG message carries
      whether the DKG instance takes it. */
  datatype Message =
    | BatchConfigMsg(config: Option<Config>)
    | BatchConfigStartedMsg(configIndex: uint64)
    | CheckInMsg(keys: Option<CheckInKeys>)
    | EonStartVoteMsg(startBatchIndex: uint64)
    | DKGMsg(eon: nat, kind: MessageKind, payload: nat, registers: bool)

  datatype Event =
    | ConfigAdded(config: Config)
    | EonStarted(eon: nat, batchIndex: uint64)
    | CheckedIn(sender: Address, key: EncryptionKey)
    | DKGMessage(eon: nat, kind: MessageKind, payload: nat)

  datatype App = App(
    configs: seq<Config>,
    configVoting: Poll<Config>,
    eonStartVotings: map<uint64, Poll<uint64>>,
    dkgs: map<nat, Config>,
    eonCounter: nat,
    identities: map<Address, Key>,
    startedVotes: set<Address>,
    validators: Powermap)
  {
    /** There is a config for every batch. */
    predicate Guarded() {
      |configs| > 0 && configs[0].startBatchIndex == 0
    }

    function Last(): Config
      requires Guarded()
    {
      configs[|configs| - 1]
    }
  }

  /** An app, whether the message was accepted, and the events. */
  datatype Delivered = Delivered(app: App, ok: bool, events: seq<Event>)

  function Rejected(app: App): Delivered {
    Delivered(app, false, [])
  }

  // ----- configs

  predicate EnsureValid(c: Config) {
    c.keypers != [] && c.threshold != 0 && AsInt(c.threshold) <= |c.keypers|
  }

  predicate CheckConfig(last: Config, c: Config) {
    EnsureValid(c) && c.startBatchIndex >= last.startBatchIndex && c.configIndex > last.configIndex
  }

  /** The last config that starts at or before the batch. */
  function GetConfig(configs: seq<Config>, batchIndex: uint64): (i: nat)
    requires |configs| > 0 && configs[0].startBatchIndex == 0
    ensures i < |configs| && configs[i].startBatchIndex <= batchIndex
    ensures forall j :: i < j < |configs| ==> configs[j].startBatchIndex > batchIndex
  {
    if configs[|configs| - 1].startBatchIndex <= batchIndex then |configs| - 1
    else GetConfig(configs[..|configs| - 1], batchIndex)
  }

  predicate ShouldStartDKG(app: App, c: Config) {
    || app.eonCounter !in app.dkgs
    || app.dkgs[app.eonCounter].threshold != c.threshold
    || app.dkgs[app.eonCounter].keypers != c.keypers
  }

  function StartDKG(app: App, c: Config): (app': App)
    ensures app'.configs == app.configs
  {
    app.(eonCounter := app.eonCounter + 1, dkgs := app.dkgs[app.eonCounter + 1 := c])
  }

  // ----- messages

  /** The candidate just voted for has its threshold. */
  predicate Decided<C(==)>(p: Poll<C>, sender: Address, c: C, threshold: uint64) {
    Wins(Voted(p, sender, c).votes, Place(p.candidates, c), AsInt(threshold))
  }

  function AfterNewConfig(app: App, c: Config): Delivered {
    var app1 := app.(configVoting := NewPoll(), configs := app.configs + [c]);
    if ShouldStartDKG(app1, c) then
      Delivered(StartDKG(app1, c), true, [ConfigAdded(c), EonStarted(app.eonCounter + 1, c.startBatchIndex)])
    else Delivered(app1, true, [ConfigAdded(c)])
  }

  function BatchConfigDelivered(app: App, msg: Option<Config>, sender: Address): (d: Delivered)
    requires app.Guarded()
    ensures d.app.Guarded()
  {
    if msg.None? then Rejected(app)
    else
      var c := msg.value;
      if app.Last() == c then Delivered(app, true, [])
      else if !CheckConfig(app.Last(), c) || sender !in app.Last().keypers || sender in app.configVoting.votes then
        Rejected(app)
      else if Decided(app.configVoting, sender, c, app.Last().threshold) then AfterNewConfig(app, c)
      else Delivered(app.(configVoting := Voted(app.configVoting, sender, c)), true, [])
  }

  function BatchConfigStartedDelivered(app: App, configIndex: uint64, sender: Address): (d: Delivered)
    requires app.Guarded()
    ensures d.app.Guarded()
  {
    if configIndex != app.Last().configIndex || |app.configs| <= 1 then Rejected(app)
    else if sender !in app.configs[|app.configs| - 2].keypers then Rejected(app)
    else
      Delivered(if app.Last().started then app else app.(startedVotes := app.startedVotes + {sender}), true, [])
  }

  predicate IsKeyper(app: App, a: Address) {
    exists i :: 0 <= i < |app.configs| && a in app.configs[i].keypers
  }

  function CheckInDelivered(app: App, keys: Option<CheckInKeys>, sender: Address): (d: Delivered)
    requires app.Guarded()
    ensures d.app.Guarded()
  {
    if sender in app.identities || !IsKeyper(app, sender) || keys.None? then Rejected(app)
    else
      Delivered(app.(identities := app.identities[sender := keys.value.validator]), true,
                [CheckedIn(sender, keys.value.encryption)])
  }

  function EonPoll(app: App, configIndex: uint64): Poll<uint64> {
    if configIndex in app.eonStartVotings then app.eonStartVotings[configIndex] else NewPoll()
  }

  /** The vote of a keyper of the config that the batch belongs to. */
  function EonStartVoteCounted(app: App, c: Config, batchIndex: uint64, sender: Address): Delivered {
    var p := EonPoll(app, c.configIndex);
    if Decided(p, sender, batchIndex, c.threshold) then
      Delivered(StartDKG(app.(eonStartVotings := app.eonStartVotings - {c.configIndex}), c), true,
                [EonStarted(app.eonCounter + 1, batchIndex)])
    else
      Delivered(app.(eonStartVotings := app.eonStartVotings[c.configIndex := Voted(p, sender, batchIndex)]), true, [])
  }

  function EonStartVoteDelivered(app: App, batchIndex: uint64, sender: Address): (d: Delivered)
    requires app.Guarded()
    ensures d.app.Guarded()
  {
    var c := app.configs[GetConfig(app.configs, batchIndex)];
    if sender !in c.keypers then Rejected(app)
    else EonStartVoteCounted(app, c, batchIndex, sender)
  }

  function DKGMessageDelivered(app: App, eon: nat, kind: MessageKind, payload: nat, registers: bool): (d: Delivered)
    requires app.Guarded()
    ensures d.app.Guarded()
  {
    if eon !in app.dkgs || !registers then Rejected(app)
    else Delivered(app, true, [DKGMessage(eon, kind, payload)])
  }

  function Deliver(app: App, msg: Message, sender: Address): (d: Delivered)
    requires app.Guarded()
    ensures d.app.Guarded()
  {
    match msg
    case BatchConfigMsg(c) => BatchConfigDelivered(app, c, sender)
    case BatchConfigStartedMsg(i) => BatchConfigStartedDelivered(app, i, sender)
    case CheckInMsg(keys) => CheckInDelivered(app, keys, sender)
    case EonStartVoteMsg(b) => EonStartVoteDelivered(app, b, sender)
    case DKGMsg(eon, kind, payload, registers) => DKGMessageDelivered(app, eon, kind, payload, registers)
  }

  // ----- the end of a block

  function CheckedInKeypers(keypers: seq<Address>, identities: map<Address, Key>): nat {
    if keypers == [] then 0
    else
      CheckedInKeypers(keypers[..|keypers| - 1], identities)
      + if keypers[|keypers| - 1] in identities then 1 else 0
  }

  function WithLast(app: App, c: Config): (app': App)
    requires app.Guarded() && c.startBatchIndex == app.Last().startBatchIndex
    ensures app'.Guarded()
  {
    app.(configs := app.configs[|app.configs| - 1 := c])
  }

  /** Starts the last config if enough keypers of the one before it voted for that. */
  function MaybeStartConfig(app: App): (app': App)
    requires app.Guarded()
    ensures app'.Guarded()
  {
    if |app.configs| >= 2 && |app.startedVotes| >= app.configs[|app.configs| - 2].threshold then
      WithLast(app, app.Last().(started := true)).(startedVotes := {})
    else app
  }

  function MaybeUpdateValidators(app: App): (app': App)
    requires app.Guarded()
    ensures app'.Guarded()
  {
    var last := app.Last();
    if last.started && !last.validatorsUpdated
       && CheckedInKeypers(last.keypers, app.identities) >= last.threshold then
      WithLast(app, last.(validatorsUpdated := true))
    else app
  }

  /** The validators of the last config that has taken over, if any. */
  function CurrentValidators(configs: seq<Config>, app: App, placeholder: Key): Powermap {
    if configs == [] then app.validators
    else
      var c := configs[|configs| - 1];
      if TakenOver(c) then MakePowermap(c.keypers, app.identities, placeholder)
      else CurrentValidators(configs[..|configs| - 1], app, placeholder)
  }

  function BlockEnded(app: App, placeholder: Key): (app': App)
    requires app.Guarded()
    ensures app'.Guarded()
  {
    var app1 := MaybeUpdateValidators(MaybeStartConfig(app));
    app1.(validators := CurrentValidators(app1.configs, app1, placeholder))
  }

  // ----- genesis

  function GenesisConfig(keypers: seq<Address>, threshold: uint64): Config {
    Config(0, keypers, threshold, 0, 0, false, false)
  }

  function Genesis(keypers: seq<Address>, threshold: uint64, validators: seq<ValidatorUpdate>): App {
    App([GenesisConfig(keypers, threshold)], NewPoll(), map[], map[], 0, map[], {}, FromList(validators))
  }

  // ----- the invariant

  ghost predicate ConfigsOk(configs: seq<Config>) {
    && (forall i, j :: 0 <= i < j < |configs| ==> configs[i].configIndex < configs[j].configIndex)
    && (forall i, j :: 0 <= i < j < |configs| ==> configs[i].startBatchIndex <= configs[j].startBatchIndex)
    && (forall i :: 0 <= i < |configs| ==> EnsureValid(configs[i]))
  }

  ghost predicate HasIndex(configs: seq<Config>, configIndex: uint64) {
    exists i :: 0 <= i < |configs| && configs[i].configIndex == configIndex
  }

  /** Every poll on eon starts belongs to a config and has no winner. */
  ghost predicate EonPollsOk(configs: seq<Config>, polls: map<uint64, Poll<uint64>>) {
    && (forall k :: k in polls ==> HasIndex(configs, k))
    && (forall i :: 0 <= i < |configs| && configs[i].configIndex in polls ==>
          Open(polls[configs[i].configIndex], AsInt(configs[i].threshold)))
  }

  ghost predicate EonsOk(dkgs: map<nat, Config>, eonCounter: nat) {
    forall e: nat :: e in dkgs <==> 1 <= e <= eonCounter
  }

  /** Between deliveries no candidate holds its threshold of votes, and the DKG
      instances are numbered from 1. */
  ghost predicate Inv(app: App) {
    && app.Guarded() && ConfigsOk(app.configs)
    && Open(app.configVoting, AsInt(app.Last().threshold))
    && EonPollsOk(app.configs, app.eonStartVotings)
    && EonsOk(app.dkgs, app.eonCounter)
  }

  lemma StillHasIndex(configs: seq<Config>, configs': seq<Config>, k: uint64)
    requires HasIndex(configs, k) && |configs| <= |configs'|
    requires forall i :: 0 <= i < |configs| ==> configs'[i].configIndex == configs[i].configIndex
    ensures HasIndex(configs', k)
  {
    var i :| 0 <= i < |configs| && configs[i].configIndex == k;
    assert configs'[i].configIndex == k;
  }

  lemma ConfigsGrow(configs: seq<Config>, c: Config)
    requires ConfigsOk(configs) && |configs| > 0 && CheckConfig(configs[|configs| - 1], c)
    ensures ConfigsOk(configs + [c]) && !HasIndex(configs, c.configIndex)
  {
  }

  lemma PollsStay(configs: seq<Config>, c: Config, polls: map<uint64, Poll<uint64>>)
    requires EonPollsOk(configs, polls) && !HasIndex(configs, c.configIndex)
    ensures EonPollsOk(configs + [c], polls)
  {
    forall k | k in polls
      ensures HasIndex(configs + [c], k)
    {
      StillHasIndex(configs, configs + [c], k);
    }
  }

  lemma StartDKGKeepsInv(app: App, c: Config)
    requires Inv(app)
    ensures Inv(StartDKG(app, c))
  {
    assert EonsOk(StartDKG(app, c).dkgs, app.eonCounter + 1);
  }

  /** The new config starts with nobody's vote for its successor. */
  lemma NewPollOpen<C>(required: int)
    ensures Open(NewPoll<C>(), required)
  {
  }

  lemma WithConfigKeepsInv(app: App, c: Config)
    requires Inv(app) && CheckConfig(app.Last(), c)
    ensures Inv(app.(configVoting := NewPoll(), configs := app.configs + [c]))
  {
    ConfigsGrow(app.configs, c);
    PollsStay(app.configs, c, app.eonStartVotings);
    NewPollOpen<Config>(AsInt(c.threshold));
  }

  lemma NewConfigKeepsInv(app: App, c: Config)
    requires Inv(app) && CheckConfig(app.Last(), c)
    ensures Inv(AfterNewConfig(app, c).app)
  {
    WithConfigKeepsInv(app, c);
    StartDKGKeepsInv(app.(configVoting := NewPoll(), configs := app.configs + [c]), c);
  }

  lemma BatchConfigKeepsInv(app: App, msg: Option<Config>, sender: Address)
    requires Inv(app)
    ensures Inv(BatchConfigDelivered(app, msg, sender).app)
  {
    if msg.Some? && CheckConfig(app.Last(), msg.value) {
      var c, t := msg.value, app.Last().threshold;
      if Decided(app.configVoting, sender, c, t) {
        NewConfigKeepsInv(app, c);
      } else {
        NobodyWins(app.configVoting, sender, c, t);
      }
    }
  }

  lemma NobodyWins<C>(p: Poll<C>, sender: Address, c: C, threshold: uint64)
    requires Open(p, AsInt(threshold)) && !Decided(p, sender, c, threshold)
    ensures Open(Voted(p, sender, c), AsInt(threshold))
  {
    forall i: nat
      ensures !Wins(Voted(p, sender, c).votes, i, AsInt(threshold))
    {
      if Wins(Voted(p, sender, c).votes, i, AsInt(threshold)) {
        OnlyVotedCanWin(p, sender, c, AsInt(threshold), i);
      }
    }
    StaysOpen(p, sender, c, AsInt(threshold));
  }

  lemma PollPut(configs: seq<Config>, polls: map<uint64, Poll<uint64>>, g: nat, p: Poll<uint64>)
    requires ConfigsOk(configs) && EonPollsOk(configs, polls) && g < |configs|
    requires Open(p, AsInt(configs[g].threshold))
    ensures EonPollsOk(configs, polls[configs[g].configIndex := p])
  {
    forall i | 0 <= i < |configs| && configs[i].configIndex in polls[configs[g].configIndex := p]
      ensures Open(polls[configs[g].configIndex := p][configs[i].configIndex], AsInt(configs[i].threshold))
    {
      if i != g {
        assert configs[i].configIndex != configs[g].configIndex;
      }
    }
  }

  lemma PollOpen(app: App, g: nat)
    requires Inv(app) && g < |app.configs|
    ensures Open(EonPoll(app, app.configs[g].configIndex), AsInt(app.configs[g].threshold))
  {
  }

  lemma EonStartVoteKeepsInv(app: App, batchIndex: uint64, sender: Address)
    requires Inv(app)
    ensures Inv(EonStartVoteDelivered(app, batchIndex, sender).app)
  {
    var g := GetConfig(app.configs, batchIndex);
    var c := app.configs[g];
    var p := EonPoll(app, c.configIndex);
    if Decided(p, sender, batchIndex, c.threshold) {
      PollRemoved(app, c.configIndex);
      StartDKGKeepsInv(app.(eonStartVotings := app.eonStartVotings - {c.configIndex}), c);
    } else {
      PollOpen(app, g);
      NobodyWins(p, sender, batchIndex, c.threshold);
      PollReplaced(app, g, Voted(p, sender, batchIndex));
    }
  }

  lemma PollRemoved(app: App, configIndex: uint64)
    requires Inv(app)
    ensures Inv(app.(eonStartVotings := app.eonStartVotings - {configIndex}))
  {
  }

  lemma PollReplaced(app: App, g: nat, p: Poll<uint64>)
    requires Inv(app) && g < |app.configs| && Open(p, AsInt(app.configs[g].threshold))
    ensures Inv(app.(eonStartVotings := app.eonStartVotings[app.configs[g].configIndex := p]))
  {
    PollPut(app.configs, app.eonStartVotings, g, p);
  }

  lemma EndBlockKeepsInv(app: App, placeholder: Key)
    requires Inv(app)
    ensures Inv(BlockEnded(app, placeholder))
    ensures BlockEnded(app, placeholder).eonCounter == app.eonCounter
  {
    StartKeepsInv(app);
    UpdateKeepsInv(MaybeStartConfig(app));
  }

  /** The validators are the keypers of config i, if it is the last one that has taken
      over; if none has, they stay as they are. */
  lemma {:induction false} ValidatorsFollow(configs: seq<Config>, app: App, placeholder: Key, i: int)
    requires -1 <= i < |configs| && (i >= 0 ==> TakenOver(configs[i]))
    requires forall j :: i < j < |configs| ==> !TakenOver(configs[j])
    ensures CurrentValidators(configs, app, placeholder)
         == if i == -1 then app.validators else MakePowermap(configs[i].keypers, app.identities, placeholder)
    decreases |configs|
  {
    if i < |configs| - 1 {
      ValidatorsFollow(configs[..|configs| - 1], app, placeholder, i);
    }
  }

  predicate TakenOver(c: Config) {
    c.started && c.validatorsUpdated
  }

  lemma StartKeepsInv(app: App)
    requires Inv(app)
    ensures Inv(MaybeStartConfig(app))
  {
    LastFlagsOnly(app, app.Last().(started := true));
  }

  lemma UpdateKeepsInv(app: App)
    requires Inv(app)
    ensures Inv(MaybeUpdateValidators(app))
  {
    LastFlagsOnly(app, app.Last().(validatorsUpdated := true));
  }

  predicate SameButFlags(c: Config, d: Config) {
    c.(started := false, validatorsUpdated := false) == d.(started := false, validatorsUpdated := false)
  }

  lemma PollsKept(configs: seq<Config>, configs': seq<Config>, polls: map<uint64, Poll<uint64>>)
    requires EonPollsOk(configs, polls) && |configs| == |configs'|
    requires forall i :: 0 <= i < |configs| ==> SameButFlags(configs[i], configs'[i])
    ensures EonPollsOk(configs', polls)
  {
    forall k | k in polls
      ensures HasIndex(configs', k)
    {
      StillHasIndex(configs, configs', k);
    }
  }

  lemma ConfigsKept(configs: seq<Config>, configs': seq<Config>)
    requires ConfigsOk(configs) && |configs| == |configs'|
    requires forall i :: 0 <= i < |configs| ==> SameButFlags(configs[i], configs'[i])
    ensures ConfigsOk(configs')
  {
  }

  lemma LastFlagsOnly(app: App, c: Config)
    requires Inv(app) && SameButFlags(app.Last(), c)
    ensures Inv(WithLast(app, c))
  {
    ConfigsKept(app.configs, WithLast(app, c).configs);
    PollsKept(app.configs, WithLast(app, c).configs, app.eonStartVotings);
  }

  lemma DeliverKeepsInv(app: App, msg: Message, sender: Address)
    requires Inv(app)
    ensures Inv(Deliver(app, msg, sender).app)
  {
    match msg {
      case BatchConfigMsg(c) => BatchConfigKeepsInv(app, c, sender);
      case EonStartVoteMsg(b) => EonStartVoteKeepsInv(app, b, sender);
      case BatchConfigStartedMsg(i) => OthersKeepInv(app, BatchConfigStartedDelivered(app, i, sender).app);
      case CheckInMsg(keys) => OthersKeepInv(app, CheckInDelivered(app, keys, sender).app);
      case DKGMsg(eon, kind, payload, registers) =>
        OthersKeepInv(app, DKGMessageDelivered(app, eon, kind, payload, registers).app);
    }
  }

  /** The other messages touch neither configs nor polls nor eons. */
  lemma OthersKeepInv(app: App, app': App)
    requires Inv(app) && app' == app.(identities := app'.identities, startedVotes := app'.startedVotes)
    ensures Inv(app')
  {
  }

  // ----- the object

  class ShielderApp {
    const placeholder: Key
    const devMode: bool
    var configs: seq<Config>
    var configVoting: Poll<Config>
    var eonStartVotings: map<uint64, Poll<uint64>>
    var dkgMap: map<nat, Config>
    var eonCounter: nat
    var identities: map<Address, Key>
    var startedVotes: set<Address>
    var validators: Powermap

    ghost function View(): App
      reads this
    {
      App(configs, configVoting, eonStartVotings, dkgMap, eonCounter, identities, startedVotes, validators)
    }

    /** The app after InitChain on a new chain; an invalid genesis config stops it. */
    constructor (placeholder: Key, devMode: bool, keypers: seq<Address>, threshold: uint64,
                 genesis: seq<ValidatorUpdate>)
      requires EnsureValid(GenesisConfig(keypers, threshold))
      ensures View() == Genesis(keypers, threshold, genesis)
      ensures this.placeholder == placeholder && this.devMode == devMode
    {
      this.placeholder := placeholder;
      this.devMode := devMode;
      configs := [GenesisConfig(keypers, threshold)];
      configVoting := NewPoll();
      eonStartVotings := map[];
      dkgMap := map[];
      eonCounter := 0;
      identities := map[];
      startedVotes := {};
      validators := FromList(genesis);
    }

    method LastConfig() returns (c: Config)
      requires View().Guarded()
      ensures c == View().Last()
    {
      return configs[|configs| - 1];
    }

    method FindConfig(batchIndex: uint64) returns (c: Config)
      requires View().Guarded()
      ensures c == configs[GetConfig(configs, batchIndex)]
    {
      var i := |configs| - 1;
      while configs[i].startBatchIndex > batchIndex
        invariant 0 <= i < |configs|
        invariant GetConfig(configs[..i + 1], batchIndex) == GetConfig(configs, batchIndex)
        decreases i
      {
        assert configs[..i + 1][..i] == configs[..i];
        i := i - 1;
      }
      return configs[i];
    }

    method StartDKGFor(c: Config) returns (eon: nat)
      modifies `eonCounter, `dkgMap
      ensures View() == StartDKG(old(View()), c)
      ensures eon == old(eonCounter) + 1
    {
      eonCounter := eonCounter + 1;
      dkgMap := dkgMap[eonCounter := c];
      return eonCounter;
    }

    /** Adds the config and starts a DKG if one is due. */
    method AddConfig(c: Config) returns (events: seq<Event>)
      requires View().Guarded() && CheckConfig(View().Last(), c)
      modifies `configs, `configVoting, `eonCounter, `dkgMap
      ensures AfterNewConfig(old(View()), c) == Delivered(View(), true, events)
    {
      configVoting := NewPoll();
      configs := configs + [c];
      events := [ConfigAdded(c)];
      if ShouldStart(c) {
        var eon := StartDKGFor(c);
        events := events + [EonStarted(eon, c.startBatchIndex)];
      }
    }

    /** The outcome of counting is the config just voted for, in any order of counting,
        so it passes the check for adding it again. */
    method DeliverBatchConfig(msg: Option<Config>, sender: Address) returns (ok: bool, events: seq<Event>)
      requires Inv(View())
      modifies this
      ensures BatchConfigDelivered(old(View()), msg, sender) == Delivered(View(), ok, events)
    {
      if msg.None? {
        return false, [];
      }
      var c := msg.value;
      var last := LastConfig();
      if last == c {
        return true, [];
      }
      if !CheckConfig(last, c) {
        return false, [];
      }
      var allowed := FindIndex(last.keypers, sender);
      if allowed.None? {
        return false, [];
      }
      var p, err := AddConfigVote(configVoting, sender, c);
      if err.Some? {
        return false, [];
      }
      var outcome := OutcomeIndex(p.votes, AsInt(last.threshold));
      OutcomeDetermined(configVoting, sender, c, AsInt(last.threshold), outcome);
      if outcome.None? {
        configVoting := p;
        return true, [];
      }
      assert p.candidates[outcome.value] == c;
      events := AddConfig(c);
      return true, events;
    }

    /** Whether the threshold or the keypers have changed since the last DKG. */
    predicate ShouldStart(c: Config)
      reads this
      ensures ShouldStart(c) <==> ShouldStartDKG(View(), c)
    {
      || eonCounter !in dkgMap
      || dkgMap[eonCounter].threshold != c.threshold
      || dkgMap[eonCounter].keypers != c.keypers
    }

    method DeliverBatchConfigStarted(configIndex: uint64, sender: Address) returns (ok: bool)
      requires Inv(View())
      modifies `startedVotes
      ensures BatchConfigStartedDelivered(old(View()), configIndex, sender) == Delivered(View(), ok, [])
    {
      var last := LastConfig();
      if configIndex != last.configIndex {
        return false;
      }
      if |configs| <= 1 {
        return false;
      }
      var allowed := FindIndex(configs[|configs| - 2].keypers, sender);
      if allowed.None? {
        return false;
      }
      if !last.started {
        startedVotes := startedVotes + {sender};
      }
      return true;
    }

    method IsKeyperInAnyConfig(a: Address) returns (r: bool)
      ensures r == IsKeyper(View(), a)
    {
      for i := 0 to |configs|
        invariant forall j :: 0 <= j < i ==> a !in configs[j].keypers
      {
        var index := FindIndex(configs[i].keypers, a);
        if index.Some? {
          assert a in configs[i].keypers;
          return true;
        }
      }
      return false;
    }

    method DeliverCheckIn(keys: Option<CheckInKeys>, sender: Address) returns (ok: bool, events: seq<Event>)
      requires Inv(View())
      modifies `identities
      ensures CheckInDelivered(old(View()), keys, sender) == Delivered(View(), ok, events)
    {
      if sender in identities {
        return false, [];
      }
      var known := IsKeyperInAnyConfig(sender);
      if !known || keys.None? {
        return false, [];
      }
      identities := identities[sender := keys.value.validator];
      return true, [CheckedIn(sender, keys.value.encryption)];
    }

    method CountEonStartVote(sender: Address, config: Config, startBatchIndex: uint64)
      modifies `eonStartVotings
      ensures eonStartVotings == old(eonStartVotings)[config.configIndex :=
        Voted(EonPoll(old(View()), config.configIndex), sender, startBatchIndex)]
    {
      var p := if config.configIndex in eonStartVotings then eonStartVotings[config.configIndex] else NewPoll();
      var p' := AddEonStartVote(p, sender, startBatchIndex);
      eonStartVotings := eonStartVotings[config.configIndex := p'];
    }

    /** Starts an eon if the poll that has just got the vote has a winner. Whatever the
        order of counting, the winner is the batch index just voted for. */
    method MaybeStartEon(config: Config, ghost before: Poll<uint64>, ghost sender: Address, ghost batchIndex: uint64)
      returns (started: Option<(nat, uint64)>)
      requires Open(before, AsInt(config.threshold))
      requires config.configIndex in eonStartVotings
      requires eonStartVotings[config.configIndex] == Voted(before, sender, batchIndex)
      modifies `eonStartVotings, `eonCounter, `dkgMap
      ensures started == if Decided(before, sender, batchIndex, config.threshold)
                         then Some((old(eonCounter) + 1, batchIndex)) else None
      ensures View() == if started.None? then old(View())
        else StartDKG(old(View()).(eonStartVotings := old(eonStartVotings) - {config.configIndex}), config)
    {
      var v := eonStartVotings[config.configIndex];
      var outcome := OutcomeIndex(v.votes, AsInt(config.threshold));
      OutcomeDetermined(before, sender, batchIndex, AsInt(config.threshold), outcome);
      if outcome.None? {
        return None;
      }
      eonStartVotings := eonStartVotings - {config.configIndex};
      var eon := StartDKGFor(config);
      return Some((eon, v.candidates[outcome.value]));
    }

    method DeliverEonStartVote(batchIndex: uint64, sender: Address) returns (ok: bool, events: seq<Event>)
      requires Inv(View())
      modifies `eonStartVotings, `eonCounter, `dkgMap
      ensures EonStartVoteDelivered(old(View()), batchIndex, sender) == Delivered(View(), ok, events)
    {
      var config := FindConfig(batchIndex);
      var allowed := FindIndex(config.keypers, sender);
      if allowed.None? {
        return false, [];
      }
      PollOpen(View(), GetConfig(configs, batchIndex));
      events := VoteForEon(config, batchIndex, sender);
      ok := true;
    }

    /** Counts the vote and starts an eon if it has decided the poll. */
    method VoteForEon(config: Config, batchIndex: uint64, sender: Address) returns (events: seq<Event>)
      requires Open(EonPoll(View(), config.configIndex), AsInt(config.threshold))
      modifies `eonStartVotings, `eonCounter, `dkgMap
      ensures EonStartVoteCounted(old(View()), config, batchIndex, sender) == Delivered(View(), true, events)
    {
      ghost var before := EonPoll(View(), config.configIndex);
      CountEonStartVote(sender, config, batchIndex);
      var started := MaybeStartEon(config, before, sender, batchIndex);
      if started.None? {
        return [];
      }
      assert eonStartVotings == old(eonStartVotings) - {config.configIndex};
      return [EonStarted(started.value.0, started.value.1)];
    }

    method CountCheckedInKeypers(keypers: seq<Address>) returns (n: nat)
      ensures n == CheckedInKeypers(keypers, identities)
    {
      n := 0;
      for i := 0 to |keypers|
        invariant n == CheckedInKeypers(keypers[..i], identities)
      {
        assert keypers[..i + 1][..i] == keypers[..i];
        if keypers[i] in identities {
          n := n + 1;
        }
      }
      assert keypers[..|keypers|] == keypers;
    }

    method ComputeCurrentValidators() returns (pm: Powermap)
      ensures pm == CurrentValidators(configs, View(), placeholder)
    {
      var i := |configs|;
      assert configs[..i] == configs;
      while i > 0
        invariant 0 <= i <= |configs|
        invariant CurrentValidators(configs[..i], View(), placeholder) == CurrentValidators(configs, View(), placeholder)
      {
        i := i - 1;
        assert configs[..i + 1][..i] == configs[..i];
        if configs[i].started && configs[i].validatorsUpdated {
          pm := ComputePowermap(configs[i].keypers, identities, placeholder);
          return;
        }
      }
      return validators;
    }

    /** The flags of the last config at the end of a block. */
    method UpdateLastConfig()
      requires View().Guarded()
      modifies `configs, `startedVotes
      ensures View() == MaybeUpdateValidators(MaybeStartConfig(old(View())))
    {
      var last := LastConfig();
      if |configs| >= 2 && |startedVotes| >= configs[|configs| - 2].threshold {
        last := last.(started := true);
        configs := configs[|configs| - 1 := last];
        startedVotes := {};
      }
      assert View() == MaybeStartConfig(old(View()));
      if last.started && !last.validatorsUpdated {
        var n := CountCheckedInKeypers(last.keypers);
        if n >= last.threshold {
          configs := configs[|configs| - 1 := last.(validatorsUpdated := true)];
        }
      }
    }

    /** The updates are sorted by key and stand for the difference between the old and
        the new validators; in dev mode none are returned. */
    method EndBlock() returns (updates: seq<ValidatorUpdate>)
      requires View().Guarded()
      modifies `configs, `startedVotes, `validators
      ensures View() == BlockEnded(old(View()), placeholder)
      ensures if devMode then updates == [] else UpdatesFor(old(validators), validators, updates)
    {
      UpdateLastConfig();
      var newValidators := ComputeCurrentValidators();
      var diff := ComputeDiff(validators, newValidators);
      updates := ValidatorUpdates(diff);
      validators := newValidators;
      if devMode {
        updates := [];
      }
    }
  }
}
