/** The log of a run tells what has become of the app: an observer that reads it knows the
    configs, who has checked in, and every DKG message that was taken. */
module Logs {
  import opened Outcome
  import opened Addresses
  import opened Widths
  import opened Voting
  import opened Validators
  import opened Observe
  import opened ShielderApps
  import opened AppRuns
  import opened Eons

  /** The configs that a log announces. */
  function AddedConfigs(log: seq<At<Event>>): seq<Config> {
    if log == [] then []
    else
      var e := log[|log| - 1].msg;
      AddedConfigs(log[..|log| - 1]) + if e.ConfigAdded? then [e.config] else []
  }

  /** The encryption keys that a log announces. */
  function KeysTold(log: seq<At<Event>>): map<Address, EncryptionKey> {
    if log == [] then map[]
    else
      var e := log[|log| - 1].msg;
      var before := KeysTold(log[..|log| - 1]);
      if e.CheckedIn? then before[e.sender := e.key] else before
  }

  lemma {:induction false} Appended(log: seq<At<Event>>, more: seq<At<Event>>, eon: nat, kind: MessageKind)
    ensures AddedConfigs(log + more) == AddedConfigs(log) + AddedConfigs(more)
    ensures KeysTold(log + more) == KeysTold(log) + KeysTold(more)
    ensures Messages(log + more, eon, kind) == Messages(log, eon, kind) + Messages(more, eon, kind)
    decreases |more|
  {
    if more == [] {
      assert log + more == log;
    } else {
      var n := |more| - 1;
      assert (log + more)[..|log + more| - 1] == log + more[..n];
      Appended(log, more[..n], eon, kind);
    }
  }

  // ----- one delivery

  /** What a DKG message adds to the messages of the kind for the eon, if the eon has started
      and the message is registered. */
  function Posted(app: App, op: Op, height: int, eon: nat, kind: MessageKind): seq<At<nat>> {
    match op
    case Tx(DKGMsg(e, k, payload, registers), _) =>
      if e == eon && k == kind && registers && 1 <= eon <= app.eonCounter then [At(height, payload)] else []
    case _ => []
  }

  /** Events tell the difference between two apps. */
  ghost predicate Tell(app: App, evs: seq<At<Event>>, after: App) {
    && after.configs == app.configs + AddedConfigs(evs)
    && KeysTold(evs).Keys == after.identities.Keys - app.identities.Keys
    && app.identities.Keys <= after.identities.Keys
  }

  function TellsConfig(e: Event): seq<Config> {
    if e.ConfigAdded? then [e.config] else []
  }

  function TellsKey(e: Event): map<Address, EncryptionKey> {
    if e.CheckedIn? then map[e.sender := e.key] else map[]
  }

  function TellsMessage(e: At<Event>, eon: nat, kind: MessageKind): seq<At<nat>> {
    if e.msg.DKGMessage? && e.msg.eon == eon && e.msg.kind == kind then [At(e.height, e.msg.payload)] else []
  }

  lemma OneTold(e: At<Event>, eon: nat, kind: MessageKind)
    ensures AddedConfigs([e]) == TellsConfig(e.msg) && KeysTold([e]) == TellsKey(e.msg)
    ensures Messages([e], eon, kind) == TellsMessage(e, eon, kind)
  {
    assert [e][..0] == [];
  }

  lemma TwoTold(e: At<Event>, e': At<Event>, eon: nat, kind: MessageKind)
    ensures AddedConfigs([e, e']) == TellsConfig(e.msg) + TellsConfig(e'.msg)
    ensures KeysTold([e, e']) == TellsKey(e.msg) + TellsKey(e'.msg)
    ensures Messages([e, e'], eon, kind) == TellsMessage(e, eon, kind) + TellsMessage(e', eon, kind)
  {
    assert [e] + [e'] == [e, e'];
    OneTold(e, eon, kind);
    OneTold(e', eon, kind);
    Appended([e], [e'], eon, kind);
  }

  /** What the events of a delivery tell, of which there are at most two. */
  lemma EventsTold(evs: seq<At<Event>>, eon: nat, kind: MessageKind)
    requires |evs| <= 2
    ensures |evs| == 1 ==>
      && AddedConfigs(evs) == TellsConfig(evs[0].msg) && KeysTold(evs) == TellsKey(evs[0].msg)
      && Messages(evs, eon, kind) == TellsMessage(evs[0], eon, kind)
    ensures |evs| == 2 ==>
      && AddedConfigs(evs) == TellsConfig(evs[0].msg) + TellsConfig(evs[1].msg)
      && KeysTold(evs) == TellsKey(evs[0].msg) + TellsKey(evs[1].msg)
      && Messages(evs, eon, kind) == TellsMessage(evs[0], eon, kind) + TellsMessage(evs[1], eon, kind)
  {
    if |evs| == 1 {
      assert evs == [evs[0]];
      OneTold(evs[0], eon, kind);
    } else if |evs| == 2 {
      assert evs == [evs[0], evs[1]];
      TwoTold(evs[0], evs[1], eon, kind);
    }
  }

  lemma NewConfigTells(app: App, c: Config, height: int)
    ensures var d := AfterNewConfig(app, c); Tell(app, Stamp(d.events, height), d.app)
  {
    EventsTold(Stamp(AfterNewConfig(app, c).events, height), 0, Commitment);
  }

  lemma ConfigTells(app: App, msg: Option<Config>, sender: Address, height: int)
    requires app.Guarded()
    ensures var d := BatchConfigDelivered(app, msg, sender); Tell(app, Stamp(d.events, height), d.app)
  {
    var d := BatchConfigDelivered(app, msg, sender);
    if d.events == [] {
      assert Stamp(d.events, height) == [];
    } else {
      NewConfigTells(app, msg.value, height);
    }
  }

  lemma EonTells(app: App, b: uint64, sender: Address, height: int)
    requires app.Guarded()
    ensures var d := EonStartVoteDelivered(app, b, sender); Tell(app, Stamp(d.events, height), d.app)
  {
    EventsTold(Stamp(EonStartVoteDelivered(app, b, sender).events, height), 0, Commitment);
  }

  lemma CheckInTells(app: App, keys: Option<CheckInKeys>, sender: Address, height: int)
    requires app.Guarded()
    ensures var d := CheckInDelivered(app, keys, sender); Tell(app, Stamp(d.events, height), d.app)
  {
    EventsTold(Stamp(CheckInDelivered(app, keys, sender).events, height), 0, Commitment);
  }

  lemma DKGTells(app: App, msg: Message, sender: Address, height: int)
    requires app.Guarded() && msg.DKGMsg?
    ensures var d := Deliver(app, msg, sender); Tell(app, Stamp(d.events, height), d.app)
  {
    EventsTold(Stamp(Deliver(app, msg, sender).events, height), 0, Commitment);
  }

  lemma DeliverTells(app: App, msg: Message, sender: Address, height: int)
    requires app.Guarded()
    ensures var d := Deliver(app, msg, sender); Tell(app, Stamp(d.events, height), d.app)
  {
    match msg
    case BatchConfigMsg(c) => ConfigTells(app, c, sender, height);
    case BatchConfigStartedMsg(_) =>
    case CheckInMsg(keys) => CheckInTells(app, keys, sender, height);
    case EonStartVoteMsg(b) => EonTells(app, b, sender, height);
    case DKGMsg(_, _, _, _) => DKGTells(app, msg, sender, height);
  }

  lemma EventsFew(app: App, msg: Message, sender: Address)
    requires app.Guarded()
    ensures |Deliver(app, msg, sender).events| <= 2
    ensures !msg.DKGMsg? ==> forall i :: 0 <= i < |Deliver(app, msg, sender).events| ==> !Deliver(app, msg, sender).events[i].DKGMessage?
  {
  }

  /** The messages among the events of a delivery. */
  lemma DeliverPosts(app: App, msg: Message, sender: Address, height: int, eon: nat, kind: MessageKind)
    requires app.Guarded() && EonsOk(app.dkgs, app.eonCounter)
    ensures Messages(Stamp(Deliver(app, msg, sender).events, height), eon, kind) == Posted(app, Tx(msg, sender), height, eon, kind)
  {
    EventsFew(app, msg, sender);
    EventsTold(Stamp(Deliver(app, msg, sender).events, height), eon, kind);
  }

  // ----- over runs

  /** The configs are the same but for their flags, which the log does not tell. */
  predicate SameButFlags(c: Config, c': Config) {
    c'.(started := c.started, validatorsUpdated := c.validatorsUpdated) == c
  }

  /** The configs after the first are those announced, but for their flags. */
  ghost predicate Announced(added: seq<Config>, configs: seq<Config>) {
    && |configs| == |added| + 1
    && forall i :: 0 <= i < |added| ==> SameButFlags(added[i], configs[i + 1])
  }

  ghost predicate LogTells(chain: Chain) {
    && Announced(AddedConfigs(chain.log), chain.app.configs)
    && KeysTold(chain.log).Keys == chain.app.identities.Keys
  }

  lemma MoreAnnounced(added: seq<Config>, configs: seq<Config>, more: seq<Config>)
    requires Announced(added, configs)
    ensures Announced(added + more, configs + more)
  {
  }

  lemma KeysOfBoth(a: map<Address, EncryptionKey>, b: map<Address, EncryptionKey>)
    ensures (a + b).Keys == a.Keys + b.Keys
  {
  }

  lemma TxTells(chain: Chain, msg: Message, sender: Address, placeholder: Key)
    requires chain.app.Guarded() && LogTells(chain)
    ensures LogTells(Next(chain, Tx(msg, sender), placeholder))
  {
    var evs := Stamp(Deliver(chain.app, msg, sender).events, chain.height);
    DeliverTells(chain.app, msg, sender, chain.height);
    Appended(chain.log, evs, 0, Commitment);
    MoreAnnounced(AddedConfigs(chain.log), chain.app.configs, AddedConfigs(evs));
    KeysOfBoth(KeysTold(chain.log), KeysTold(evs));
  }

  lemma BlockTells(chain: Chain, placeholder: Key)
    requires chain.app.Guarded() && LogTells(chain)
    ensures LogTells(Next(chain, EndOfBlock, placeholder))
  {
    var app1 := MaybeStartConfig(chain.app);
    var app2 := MaybeUpdateValidators(app1);
    forall i | 0 <= i < |AddedConfigs(chain.log)|
      ensures SameButFlags(AddedConfigs(chain.log)[i], app2.configs[i + 1])
    {
      assert SameButFlags(AddedConfigs(chain.log)[i], chain.app.configs[i + 1]);
      assert SameButFlags(chain.app.configs[i + 1], app1.configs[i + 1]);
    }
  }

  /** All messages of a kind for an eon that are posted while a run goes on. */
  function AllPosted(chain: Chain, ops: seq<Op>, placeholder: Key, eon: nat, kind: MessageKind): seq<At<nat>>
    requires chain.app.Guarded()
    decreases |ops|
  {
    if ops == [] then []
    else
      Posted(chain.app, ops[0], chain.height, eon, kind)
      + AllPosted(Next(chain, ops[0], placeholder), ops[1..], placeholder, eon, kind)
  }

  lemma NextPosts(chain: Chain, op: Op, placeholder: Key, eon: nat, kind: MessageKind)
    requires Inv(chain.app)
    ensures Messages(Next(chain, op, placeholder).log, eon, kind)
         == Messages(chain.log, eon, kind) + Posted(chain.app, op, chain.height, eon, kind)
  {
    match op
    case Tx(msg, sender) =>
      DeliverPosts(chain.app, msg, sender, chain.height, eon, kind);
      Appended(chain.log, Stamp(Deliver(chain.app, msg, sender).events, chain.height), eon, kind);
    case EndOfBlock =>
  }

  lemma NextTells(chain: Chain, op: Op, placeholder: Key)
    requires chain.app.Guarded() && LogTells(chain)
    ensures LogTells(Next(chain, op, placeholder))
  {
    match op
    case Tx(msg, sender) => TxTells(chain, msg, sender, placeholder);
    case EndOfBlock => BlockTells(chain, placeholder);
  }

  lemma {:induction false} ExecTells(chain: Chain, ops: seq<Op>, placeholder: Key)
    requires chain.app.Guarded() && LogTells(chain)
    ensures LogTells(Exec(chain, ops, placeholder))
    decreases |ops|
  {
    if ops != [] {
      NextTells(chain, ops[0], placeholder);
      ExecTells(Next(chain, ops[0], placeholder), ops[1..], placeholder);
    }
  }

  lemma {:induction false} ExecPosts(chain: Chain, ops: seq<Op>, placeholder: Key, eon: nat, kind: MessageKind)
    requires Inv(chain.app) && LogOk(chain)
    ensures Messages(Exec(chain, ops, placeholder).log, eon, kind)
         == Messages(chain.log, eon, kind) + AllPosted(chain, ops, placeholder, eon, kind)
    decreases |ops|
  {
    if ops != [] {
      var next := Next(chain, ops[0], placeholder);
      NextPosts(chain, ops[0], placeholder, eon, kind);
      NextKeepsLogOk(chain, ops[0], placeholder);
      ExecPosts(next, ops[1..], placeholder, eon, kind);
      Associative(Messages(chain.log, eon, kind), Posted(chain.app, ops[0], chain.height, eon, kind),
                  AllPosted(next, ops[1..], placeholder, eon, kind));
    }
  }

  lemma Associative<T>(a: seq<T>, b: seq<T>, c: seq<T>)
    ensures a + b + c == a + (b + c)
  {
  }

  /** In every run the log announces each config after the first, once and in order, the
      encryption keys of exactly those that have checked in, and exactly the DKG messages
      that were posted for eons already started. */
  lemma LogTellsAll(keypers: seq<Address>, threshold: uint64, genesis: seq<ValidatorUpdate>,
                    ops: seq<Op>, placeholder: Key, eon: nat, kind: MessageKind)
    requires EnsureValid(GenesisConfig(keypers, threshold))
    ensures var chain := Exec(Start(keypers, threshold, genesis), ops, placeholder);
      LogTells(chain)
      && Messages(chain.log, eon, kind) == AllPosted(Start(keypers, threshold, genesis), ops, placeholder, eon, kind)
  {
    GenesisOk(keypers, threshold, genesis);
    ExecTells(Start(keypers, threshold, genesis), ops, placeholder);
    ExecPosts(Start(keypers, threshold, genesis), ops, placeholder, eon, kind);
  }
}
