/** Who decides in the replicated app: a new config, a new eon and the start of a config
    each take the votes of enough keypers, and everybody else changes nothing. */
module Quorums {
  import opened Sets
  import opened Outcome
  import opened Addresses
  import opened Widths
  import opened Voting
  import opened Validators
  import opened Observe
  import opened ShielderApps
  import opened AppRuns

  // ----- outsiders

  /** A sender that is a keyper of no config changes nothing. */
  lemma OutsidersChangeNothing(app: App, msg: Message, sender: Address)
    requires app.Guarded() && !IsKeyper(app, sender)
    ensures Deliver(app, msg, sender).app == app
  {
    match msg
    case BatchConfigMsg(_) => assert app.Last() == app.configs[|app.configs| - 1];
    case BatchConfigStartedMsg(_) =>
      if |app.configs| >= 2 { assert sender !in app.configs[|app.configs| - 2].keypers; }
    case CheckInMsg(_) =>
    case EonStartVoteMsg(b) => assert sender !in app.configs[GetConfig(app.configs, b)].keypers;
    case DKGMsg(_, _, _, _) =>
  }

  /** Validator keys are registered by keypers for themselves, and once for all. */
  lemma KeysStay(app: App, msg: Message, sender: Address)
    requires app.Guarded()
    ensures var after := Deliver(app, msg, sender).app.identities;
      && (forall a :: a in app.identities ==> a in after && after[a] == app.identities[a])
      && (forall a :: a in after && a !in app.identities ==>
            a == sender && IsKeyper(app, sender) && msg.CheckInMsg? && msg.keys.Some? && after[a] == msg.keys.value.validator)
  {
  }

  // ----- votes come from messages

  /** The sender has sent the message. */
  ghost predicate Cast(past: seq<Op>, sender: Address, msg: Message) {
    exists i :: 0 <= i < |past| && past[i] == Tx(msg, sender)
  }

  lemma CastLater(past: seq<Op>, op: Op, sender: Address, msg: Message)
    requires Cast(past, sender, msg)
    ensures Cast(past + [op], sender, msg)
  {
    var i :| 0 <= i < |past| && past[i] == Tx(msg, sender);
    assert (past + [op])[i] == past[i];
  }

  lemma CastNow(past: seq<Op>, sender: Address, msg: Message)
    ensures Cast(past + [Tx(msg, sender)], sender, msg)
  {
    assert (past + [Tx(msg, sender)])[|past|] == Tx(msg, sender);
  }

  ghost predicate ConfigVoteBacked(p: Poll<Config>, keypers: seq<Address>, past: seq<Op>, a: Address)
    requires a in p.votes
  {
    a in keypers && p.votes[a] < |p.candidates| && Cast(past, a, BatchConfigMsg(Some(p.candidates[p.votes[a]])))
  }

  /** Every vote for a config was cast by a keyper of the last config. */
  ghost predicate ConfigVotesBacked(app: App, past: seq<Op>)
    requires app.Guarded()
  {
    forall a :: a in app.configVoting.votes ==> ConfigVoteBacked(app.configVoting, app.Last().keypers, past, a)
  }

  ghost predicate EonVoteBacked(p: Poll<uint64>, keypers: seq<Address>, past: seq<Op>, a: Address)
    requires a in p.votes
  {
    a in keypers && p.votes[a] < |p.candidates| && Cast(past, a, EonStartVoteMsg(p.candidates[p.votes[a]]))
  }

  ghost predicate PollBacked(p: Poll<uint64>, keypers: seq<Address>, past: seq<Op>) {
    forall a :: a in p.votes ==> EonVoteBacked(p, keypers, past, a)
  }

  /** Every vote for an eon was cast by a keyper of the config that the poll belongs to. */
  ghost predicate EonVotesBacked(app: App, past: seq<Op>) {
    forall i :: 0 <= i < |app.configs| && app.configs[i].configIndex in app.eonStartVotings ==>
      PollBacked(app.eonStartVotings[app.configs[i].configIndex], app.configs[i].keypers, past)
  }

  /** Every vote to start a config was cast by a keyper of the one before it. */
  ghost predicate StartVoteBacked(configs: seq<Config>, past: seq<Op>, a: Address) {
    exists i :: 1 <= i < |configs| && a in configs[i - 1].keypers && Cast(past, a, BatchConfigStartedMsg(configs[i].configIndex))
  }

  ghost predicate StartVotesBacked(app: App, past: seq<Op>) {
    forall a :: a in app.startedVotes ==> StartVoteBacked(app.configs, past, a)
  }

  ghost predicate Backed(app: App, past: seq<Op>) {
    app.Guarded() && ConfigVotesBacked(app, past) && EonVotesBacked(app, past) && StartVotesBacked(app, past)
  }

  // ----- deliveries keep votes backed

  lemma LaterBacked(app: App, past: seq<Op>, op: Op)
    requires Backed(app, past)
    ensures Backed(app, past + [op])
  {
    forall a | a in app.configVoting.votes
      ensures ConfigVoteBacked(app.configVoting, app.Last().keypers, past + [op], a)
    {
      assert ConfigVoteBacked(app.configVoting, app.Last().keypers, past, a);
      CastLater(past, op, a, BatchConfigMsg(Some(app.configVoting.candidates[app.configVoting.votes[a]])));
    }
    forall i | 0 <= i < |app.configs| && app.configs[i].configIndex in app.eonStartVotings
      ensures PollBacked(app.eonStartVotings[app.configs[i].configIndex], app.configs[i].keypers, past + [op])
    {
      PollLater(app.eonStartVotings[app.configs[i].configIndex], app.configs[i].keypers, past, op);
    }
    forall a | a in app.startedVotes
      ensures StartVoteBacked(app.configs, past + [op], a)
    {
      StartLater(app.configs, past, op, a);
    }
  }

  lemma PollLater(p: Poll<uint64>, keypers: seq<Address>, past: seq<Op>, op: Op)
    requires PollBacked(p, keypers, past)
    ensures PollBacked(p, keypers, past + [op])
  {
    forall a | a in p.votes
      ensures EonVoteBacked(p, keypers, past + [op], a)
    {
      assert EonVoteBacked(p, keypers, past, a);
      CastLater(past, op, a, EonStartVoteMsg(p.candidates[p.votes[a]]));
    }
  }

  lemma StartLater(configs: seq<Config>, past: seq<Op>, op: Op, a: Address)
    requires StartVoteBacked(configs, past, a)
    ensures StartVoteBacked(configs, past + [op], a)
  {
    var i :| 1 <= i < |configs| && a in configs[i - 1].keypers && Cast(past, a, BatchConfigStartedMsg(configs[i].configIndex));
    CastLater(past, op, a, BatchConfigStartedMsg(configs[i].configIndex));
  }

  lemma VotedKeeps<C>(p: Poll<C>, sender: Address, c: C, a: Address)
    requires a in p.votes && p.votes[a] < |p.candidates|
    ensures var p' := Voted(p, sender, c);
      a != sender ==> a in p'.votes && p'.votes[a] < |p'.candidates| && p'.candidates[p'.votes[a]] == p.candidates[p.votes[a]]
  {
  }

  lemma VotedSender<C>(p: Poll<C>, sender: Address, c: C)
    ensures var p' := Voted(p, sender, c);
      sender in p'.votes && p'.votes[sender] < |p'.candidates| && p'.candidates[p'.votes[sender]] == c
  {
  }

  /** After a vote for a config. */
  lemma ConfigVoteKept(p: Poll<Config>, keypers: seq<Address>, past: seq<Op>, sender: Address, c: Config)
    requires forall a :: a in p.votes ==> ConfigVoteBacked(p, keypers, past, a)
    requires sender in keypers && Cast(past, sender, BatchConfigMsg(Some(c)))
    ensures forall a :: a in Voted(p, sender, c).votes ==> ConfigVoteBacked(Voted(p, sender, c), keypers, past, a)
  {
    forall a | a in Voted(p, sender, c).votes
      ensures ConfigVoteBacked(Voted(p, sender, c), keypers, past, a)
    {
      if a == sender {
        VotedSender(p, sender, c);
      } else {
        assert ConfigVoteBacked(p, keypers, past, a);
        VotedKeeps(p, sender, c, a);
      }
    }
  }

  lemma EonVoteKept(p: Poll<uint64>, keypers: seq<Address>, past: seq<Op>, sender: Address, b: uint64)
    requires PollBacked(p, keypers, past) && sender in keypers && Cast(past, sender, EonStartVoteMsg(b))
    ensures PollBacked(Voted(p, sender, b), keypers, past)
  {
    forall a | a in Voted(p, sender, b).votes
      ensures EonVoteBacked(Voted(p, sender, b), keypers, past, a)
    {
      if a == sender {
        VotedSender(p, sender, b);
      } else {
        assert EonVoteBacked(p, keypers, past, a);
        VotedKeeps(p, sender, b, a);
      }
    }
  }

  lemma StartVoteStays(configs: seq<Config>, configs': seq<Config>, past: seq<Op>, a: Address)
    requires StartVoteBacked(configs, past, a) && |configs| <= |configs'|
    requires forall i :: 0 <= i < |configs| ==> SameVoters(configs[i], configs'[i])
    ensures StartVoteBacked(configs', past, a)
  {
    var i :| 1 <= i < |configs| && a in configs[i - 1].keypers && Cast(past, a, BatchConfigStartedMsg(configs[i].configIndex));
    assert SameVoters(configs[i], configs'[i]) && SameVoters(configs[i - 1], configs'[i - 1]);
  }

  /** The configs differ at most in their flags. */
  ghost predicate SameVoters(c: Config, c': Config) {
    c'.keypers == c.keypers && c'.threshold == c.threshold && c'.configIndex == c.configIndex
  }

  lemma EonVotesStay(app: App, app': App, past: seq<Op>)
    requires EonVotesBacked(app, past) && EonPollsOk(app.configs, app.eonStartVotings)
    requires |app.configs| <= |app'.configs| && app'.eonStartVotings == app.eonStartVotings
    requires forall i :: 0 <= i < |app.configs| ==> SameVoters(app.configs[i], app'.configs[i])
    requires forall i :: |app.configs| <= i < |app'.configs| ==> !HasIndex(app.configs, app'.configs[i].configIndex)
    ensures EonVotesBacked(app', past)
  {
    forall i | 0 <= i < |app'.configs| && app'.configs[i].configIndex in app'.eonStartVotings
      ensures PollBacked(app'.eonStartVotings[app'.configs[i].configIndex], app'.configs[i].keypers, past)
    {
      assert HasIndex(app.configs, app'.configs[i].configIndex);
      assert i < |app.configs| && SameVoters(app.configs[i], app'.configs[i]);
    }
  }

  /** A new config leaves the votes on eons and on starts backed. */
  lemma NewConfigBacked(app: App, c: Config, past: seq<Op>)
    requires Inv(app) && Backed(app, past) && CheckConfig(app.Last(), c)
    ensures Backed(AfterNewConfig(app, c).app, past)
  {
    var app' := AfterNewConfig(app, c).app;
    ConfigsGrow(app.configs, c);
    EonVotesStay(app, app', past);
    forall a | a in app.startedVotes
      ensures StartVoteBacked(app'.configs, past, a)
    {
      StartVoteStays(app.configs, app'.configs, past, a);
    }
  }

  lemma ConfigDeliveredBacked(app: App, msg: Option<Config>, sender: Address, past: seq<Op>)
    requires Inv(app) && Backed(app, past) && Cast(past, sender, BatchConfigMsg(msg))
    ensures Backed(BatchConfigDelivered(app, msg, sender).app, past)
  {
    if msg.Some? && app.Last() != msg.value && CheckConfig(app.Last(), msg.value) && sender in app.Last().keypers
       && sender !in app.configVoting.votes {
      var c := msg.value;
      if Decided(app.configVoting, sender, c, app.Last().threshold) {
        NewConfigBacked(app, c, past);
      } else {
        ConfigVoteKept(app.configVoting, app.Last().keypers, past, sender, c);
      }
    }
  }

  lemma StartDeliveredBacked(app: App, configIndex: uint64, sender: Address, past: seq<Op>)
    requires Backed(app, past) && Cast(past, sender, BatchConfigStartedMsg(configIndex))
    ensures Backed(BatchConfigStartedDelivered(app, configIndex, sender).app, past)
  {
    var app' := BatchConfigStartedDelivered(app, configIndex, sender).app;
    forall a | a in app'.startedVotes
      ensures StartVoteBacked(app.configs, past, a)
    {
      if a !in app.startedVotes {
        var n := |app.configs| - 1;
        assert a in app.configs[n - 1].keypers && configIndex == app.configs[n].configIndex;
      }
    }
  }

  /** Replacing the poll of one config. */
  lemma PollPutBacked(app: App, g: nat, p: Poll<uint64>, past: seq<Op>)
    requires Inv(app) && EonVotesBacked(app, past) && g < |app.configs| && PollBacked(p, app.configs[g].keypers, past)
    ensures EonVotesBacked(app.(eonStartVotings := app.eonStartVotings[app.configs[g].configIndex := p]), past)
  {
    var polls := app.eonStartVotings[app.configs[g].configIndex := p];
    forall i | 0 <= i < |app.configs| && app.configs[i].configIndex in polls
      ensures PollBacked(polls[app.configs[i].configIndex], app.configs[i].keypers, past)
    {
      if i != g {
        assert app.configs[i].configIndex != app.configs[g].configIndex;
      }
    }
  }

  lemma PollBackedNow(app: App, g: nat, past: seq<Op>)
    requires EonVotesBacked(app, past) && g < |app.configs|
    ensures PollBacked(EonPoll(app, app.configs[g].configIndex), app.configs[g].keypers, past)
  {
  }

  lemma EonDeliveredBacked(app: App, b: uint64, sender: Address, past: seq<Op>)
    requires Inv(app) && Backed(app, past) && Cast(past, sender, EonStartVoteMsg(b))
    ensures Backed(EonStartVoteDelivered(app, b, sender).app, past)
  {
    var g := GetConfig(app.configs, b);
    var c := app.configs[g];
    if sender in c.keypers {
      var p := EonPoll(app, c.configIndex);
      if !Decided(p, sender, b, c.threshold) {
        PollBackedNow(app, g, past);
        EonVoteKept(p, c.keypers, past, sender, b);
        PollPutBacked(app, g, Voted(p, sender, b), past);
      }
    }
  }

  lemma DeliverKeepsBacked(app: App, msg: Message, sender: Address, past: seq<Op>)
    requires Inv(app) && Backed(app, past)
    ensures Backed(Deliver(app, msg, sender).app, past + [Tx(msg, sender)])
  {
    LaterBacked(app, past, Tx(msg, sender));
    CastNow(past, sender, msg);
    match msg
    case BatchConfigMsg(c) => ConfigDeliveredBacked(app, c, sender, past + [Tx(msg, sender)]);
    case BatchConfigStartedMsg(i) => StartDeliveredBacked(app, i, sender, past + [Tx(msg, sender)]);
    case CheckInMsg(_) =>
    case EonStartVoteMsg(b) => EonDeliveredBacked(app, b, sender, past + [Tx(msg, sender)]);
    case DKGMsg(_, _, _, _) =>
  }

  lemma SameAfterStart(app: App)
    requires app.Guarded()
    ensures var app' := MaybeStartConfig(app);
      && app'.(configs := app.configs, startedVotes := app.startedVotes) == app
      && app'.startedVotes <= app.startedVotes && |app'.configs| == |app.configs|
      && forall i :: 0 <= i < |app.configs| ==> SameVoters(app.configs[i], app'.configs[i])
  {
  }

  lemma SameAfterUpdate(app: App)
    requires app.Guarded()
    ensures var app' := MaybeUpdateValidators(app);
      && app'.(configs := app.configs) == app && |app'.configs| == |app.configs|
      && forall i :: 0 <= i < |app.configs| ==> SameVoters(app.configs[i], app'.configs[i])
  {
  }

  lemma FlagsBacked(app: App, app': App, past: seq<Op>)
    requires Inv(app) && Backed(app, past) && |app'.configs| == |app.configs| && app'.Guarded()
    requires app'.configVoting == app.configVoting && app'.eonStartVotings == app.eonStartVotings
    requires app'.startedVotes <= app.startedVotes
    requires forall i :: 0 <= i < |app.configs| ==> SameVoters(app.configs[i], app'.configs[i])
    ensures Backed(app', past)
  {
    EonVotesStay(app, app', past);
    assert SameVoters(app.Last(), app'.Last());
    forall a | a in app'.startedVotes
      ensures StartVoteBacked(app'.configs, past, a)
    {
      StartVoteStays(app.configs, app'.configs, past, a);
    }
  }

  /** The end of a block changes flags of the last config only, and may clear the votes on starting. */
  lemma SameVotersAfterBlock(app: App, placeholder: Key)
    requires app.Guarded()
    ensures var app' := BlockEnded(app, placeholder);
      && app'.configVoting == app.configVoting && app'.eonStartVotings == app.eonStartVotings
      && app'.startedVotes <= app.startedVotes && |app'.configs| == |app.configs|
      && forall i :: 0 <= i < |app.configs| ==> SameVoters(app.configs[i], app'.configs[i])
  {
    var app1 := MaybeStartConfig(app);
    SameAfterStart(app);
    SameAfterUpdate(app1);
    var app' := BlockEnded(app, placeholder);
    forall i | 0 <= i < |app.configs|
      ensures SameVoters(app.configs[i], app'.configs[i])
    {
      assert SameVoters(app.configs[i], app1.configs[i]);
      assert SameVoters(app1.configs[i], MaybeUpdateValidators(app1).configs[i]);
    }
  }

  lemma BlockKeepsBacked(app: App, placeholder: Key, past: seq<Op>)
    requires Inv(app) && Backed(app, past)
    ensures Backed(BlockEnded(app, placeholder), past)
  {
    SameVotersAfterBlock(app, placeholder);
    FlagsBacked(app, BlockEnded(app, placeholder), past);
  }

  lemma NextBacked(chain: Chain, op: Op, placeholder: Key, past: seq<Op>)
    requires Inv(chain.app) && Backed(chain.app, past)
    ensures Inv(Next(chain, op, placeholder).app) && Backed(Next(chain, op, placeholder).app, past + [op])
  {
    match op
    case Tx(msg, sender) =>
      DeliverKeepsInv(chain.app, msg, sender);
      DeliverKeepsBacked(chain.app, msg, sender, past);
    case EndOfBlock =>
      EndBlockKeepsInv(chain.app, placeholder);
      LaterBacked(chain.app, past, op);
      BlockKeepsBacked(chain.app, placeholder, past + [op]);
  }

  // ----- over runs

  lemma {:induction false} ExecSnoc(chain: Chain, ops: seq<Op>, op: Op, placeholder: Key)
    requires chain.app.Guarded()
    ensures Exec(chain, ops + [op], placeholder) == Next(Exec(chain, ops, placeholder), op, placeholder)
    decreases |ops|
  {
    if ops == [] {
      assert [] + [op] == [op] && [op][1..] == [];
    } else {
      assert (ops + [op])[1..] == ops[1..] + [op];
      ExecSnoc(Next(chain, ops[0], placeholder), ops[1..], op, placeholder);
    }
  }

  /** The keypers that have sent the message. */
  ghost function Senders(past: seq<Op>, keypers: seq<Address>, msg: Message): set<Address> {
    set a | a in keypers && Cast(past, a, msg)
  }

  /** The winner of a poll has as many voters as asked for, and they all have sent the vote. */
  lemma ConfigQuorum(app: App, past: seq<Op>, c: Config, sender: Address)
    requires Inv(app) && Backed(app, past) && sender in app.Last().keypers && sender !in app.configVoting.votes
    requires Decided(app.configVoting, sender, c, app.Last().threshold)
    ensures |Senders(past + [Tx(BatchConfigMsg(Some(c)), sender)], app.Last().keypers, BatchConfigMsg(Some(c)))|
         >= AsInt(app.Last().threshold)
  {
    var msg, p := BatchConfigMsg(Some(c)), app.configVoting;
    var past' := past + [Tx(msg, sender)];
    var p', all := Voted(p, sender, c), Senders(past', app.Last().keypers, msg);
    var j := Place(p.candidates, c);
    LaterBacked(app, past, Tx(msg, sender));
    CastNow(past, sender, msg);
    ConfigVoteKept(p, app.Last().keypers, past', sender, c);
    forall a | a in Voters(p'.votes, j)
      ensures a in all
    {
      assert ConfigVoteBacked(p', app.Last().keypers, past', a);
    }
    SmallerSet(Voters(p'.votes, j), all);
  }

  lemma EonQuorum(app: App, past: seq<Op>, g: nat, b: uint64, sender: Address)
    requires Inv(app) && Backed(app, past) && g < |app.configs| && sender in app.configs[g].keypers
    requires Decided(EonPoll(app, app.configs[g].configIndex), sender, b, app.configs[g].threshold)
    ensures |Senders(past + [Tx(EonStartVoteMsg(b), sender)], app.configs[g].keypers, EonStartVoteMsg(b))|
         >= AsInt(app.configs[g].threshold)
  {
    var msg, c := EonStartVoteMsg(b), app.configs[g];
    var past', p := past + [Tx(msg, sender)], EonPoll(app, c.configIndex);
    var p', all := Voted(p, sender, b), Senders(past', c.keypers, msg);
    LaterBacked(app, past, Tx(msg, sender));
    CastNow(past, sender, msg);
    EonVoteKept(p, c.keypers, past', sender, b);
    forall a | a in Voters(p'.votes, Place(p.candidates, b))
      ensures a in all
    {
      assert EonVoteBacked(p', c.keypers, past', a);
    }
    SmallerSet(Voters(p'.votes, Place(p.candidates, b)), all);
  }

  ghost predicate Genuine(keypers: seq<Address>, threshold: uint64) {
    EnsureValid(GenesisConfig(keypers, threshold))
  }

  /** In every run every vote that counts was cast by somebody who may cast it. */
  lemma {:induction false} RunBacked(keypers: seq<Address>, threshold: uint64, validators: seq<ValidatorUpdate>,
                                     ops: seq<Op>, placeholder: Key)
    requires Genuine(keypers, threshold)
    ensures var app := Exec(Start(keypers, threshold, validators), ops, placeholder).app; Inv(app) && Backed(app, ops)
    decreases |ops|
  {
    GenesisOk(keypers, threshold, validators);
    if ops != [] {
      var n := |ops| - 1;
      assert ops[..n] + [ops[n]] == ops;
      RunBacked(keypers, threshold, validators, ops[..n], placeholder);
      ExecSnoc(Start(keypers, threshold, validators), ops[..n], ops[n], placeholder);
      NextBacked(Exec(Start(keypers, threshold, validators), ops[..n], placeholder), ops[n], placeholder, ops[..n]);
    }
  }

  /** In every run, whenever a config is added, at least as many keypers of the config before
      it have asked for exactly this config as its threshold says. */
  lemma ConfigsHaveQuorum(keypers: seq<Address>, threshold: uint64, validators: seq<ValidatorUpdate>,
                          ops: seq<Op>, op: Op, placeholder: Key)
    requires Genuine(keypers, threshold)
    ensures var before := Exec(Start(keypers, threshold, validators), ops, placeholder).app;
      var after := Exec(Start(keypers, threshold, validators), ops + [op], placeholder).app;
      |after.configs| > |before.configs| ==>
        && after.configs == before.configs + [after.Last()]
        && |Senders(ops + [op], before.Last().keypers, BatchConfigMsg(Some(after.Last())))| >= AsInt(before.Last().threshold)
  {
    var chain := Exec(Start(keypers, threshold, validators), ops, placeholder);
    RunBacked(keypers, threshold, validators, ops, placeholder);
    ExecSnoc(Start(keypers, threshold, validators), ops, op, placeholder);
    match op {
      case EndOfBlock => SameVotersAfterBlock(chain.app, placeholder);
      case Tx(msg, sender) => AddedByVote(chain.app, ops, msg, sender);
    }
  }

  lemma AddedByVote(app: App, past: seq<Op>, msg: Message, sender: Address)
    requires Inv(app) && Backed(app, past)
    ensures var after := Deliver(app, msg, sender).app;
      |after.configs| > |app.configs| ==>
        && after.configs == app.configs + [after.Last()]
        && |Senders(past + [Tx(msg, sender)], app.Last().keypers, BatchConfigMsg(Some(after.Last())))| >= AsInt(app.Last().threshold)
  {
    if |Deliver(app, msg, sender).app.configs| > |app.configs| {
      ConfigQuorum(app, past, msg.config.value, sender);
    }
  }

  /** In every run, whenever a vote starts an eon, at least as many keypers of the batch's
      config have voted for this batch as its threshold says. */
  lemma EonsHaveQuorum(keypers: seq<Address>, threshold: uint64, validators: seq<ValidatorUpdate>,
                       ops: seq<Op>, b: uint64, sender: Address, placeholder: Key)
    requires Genuine(keypers, threshold)
    ensures var before := Exec(Start(keypers, threshold, validators), ops, placeholder).app;
      var after := Exec(Start(keypers, threshold, validators), ops + [Tx(EonStartVoteMsg(b), sender)], placeholder).app;
      var c := before.configs[GetConfig(before.configs, b)];
      after.eonCounter > before.eonCounter ==>
        |Senders(ops + [Tx(EonStartVoteMsg(b), sender)], c.keypers, EonStartVoteMsg(b))| >= AsInt(c.threshold)
  {
    var chain := Exec(Start(keypers, threshold, validators), ops, placeholder);
    RunBacked(keypers, threshold, validators, ops, placeholder);
    ExecSnoc(Start(keypers, threshold, validators), ops, Tx(EonStartVoteMsg(b), sender), placeholder);
    var g := GetConfig(chain.app.configs, b);
    if sender in chain.app.configs[g].keypers
       && Decided(EonPoll(chain.app, chain.app.configs[g].configIndex), sender, b, chain.app.configs[g].threshold) {
      EonQuorum(chain.app, ops, g, b, sender);
    }
  }

  // ----- what quorums bring about

  /** In every run every config has keypers, and its threshold is positive and either no more
      than their number, or so large that the source takes it for negative. */
  lemma ThresholdsInRange(keypers: seq<Address>, threshold: uint64, validators: seq<ValidatorUpdate>,
                          ops: seq<Op>, placeholder: Key, i: nat)
    requires Genuine(keypers, threshold)
    requires i < |Exec(Start(keypers, threshold, validators), ops, placeholder).app.configs|
    ensures var c := Exec(Start(keypers, threshold, validators), ops, placeholder).app.configs[i];
      |c.keypers| > 0 && (1 <= c.threshold <= |c.keypers| || c.threshold >= TWO_64 / 2)
  {
    RunBacked(keypers, threshold, validators, ops, placeholder);
    assert EnsureValid(Exec(Start(keypers, threshold, validators), ops, placeholder).app.configs[i]);
  }

  /** The DKG of the latest eon is among the keypers of the config, with its threshold. */
  predicate LatestFor(app: App, c: Config) {
    && app.eonCounter in app.dkgs
    && app.dkgs[app.eonCounter].keypers == c.keypers && app.dkgs[app.eonCounter].threshold == c.threshold
  }

  lemma NewConfigHasEon(app: App, c: Config)
    ensures var after := AfterNewConfig(app, c).app;
      LatestFor(after, c) && after.eonCounter == app.eonCounter + if LatestFor(app, c) then 0 else 1
  {
  }

  lemma ConfigVoteHasEon(app: App, msg: Option<Config>, sender: Address)
    requires app.Guarded()
    ensures var after := BatchConfigDelivered(app, msg, sender).app;
      |after.configs| > |app.configs| ==>
        && LatestFor(after, after.Last())
        && after.eonCounter == app.eonCounter + if LatestFor(app, after.Last()) then 0 else 1
  {
    if |BatchConfigDelivered(app, msg, sender).app.configs| > |app.configs| {
      NewConfigHasEon(app, msg.value);
    }
  }

  /** A new config starts an eon exactly if the latest one is not for its keypers and its
      threshold, so that afterwards the latest one is. */
  lemma ConfigsHaveEons(app: App, msg: Message, sender: Address)
    requires app.Guarded()
    ensures var after := Deliver(app, msg, sender).app;
      |after.configs| > |app.configs| ==>
        && LatestFor(after, after.Last())
        && after.eonCounter == app.eonCounter + if LatestFor(app, after.Last()) then 0 else 1
  {
    match msg
    case BatchConfigMsg(c) => ConfigVoteHasEon(app, c, sender);
    case BatchConfigStartedMsg(_) =>
    case CheckInMsg(_) =>
    case EonStartVoteMsg(b) => EonVoteKeepsConfigs(app, b, sender);
    case DKGMsg(_, _, _, _) =>
  }

  lemma EonVoteKeepsConfigs(app: App, b: uint64, sender: Address)
    requires app.Guarded()
    ensures EonStartVoteDelivered(app, b, sender).app.configs == app.configs
  {
  }

  /** The event announces the latest eon, whose DKG is that of the config which the announced
      batch belongs to; the DKGs of earlier eons stay. */
  ghost predicate AnnouncesEon(app: App, after: App, e: Event)
    requires e.EonStarted? && after.Guarded()
  {
    && e.eon == after.eonCounter == app.eonCounter + 1
    && after.dkgs == app.dkgs[e.eon := after.configs[GetConfig(after.configs, e.batchIndex)]]
  }

  lemma ConfigMatchesBatch(app: App, msg: Option<Config>, sender: Address, i: nat)
    requires app.Guarded() && i < |BatchConfigDelivered(app, msg, sender).events|
    requires BatchConfigDelivered(app, msg, sender).events[i].EonStarted?
    ensures var d := BatchConfigDelivered(app, msg, sender); AnnouncesEon(app, d.app, d.events[i])
  {
    NewEonForConfig(app, msg.value);
  }

  lemma VoteMatchesBatch(app: App, b: uint64, sender: Address, i: nat)
    requires app.Guarded() && i < |EonStartVoteDelivered(app, b, sender).events|
    ensures var d := EonStartVoteDelivered(app, b, sender); d.events[i].EonStarted? && AnnouncesEon(app, d.app, d.events[i])
  {
  }

  /** Whenever an eon is announced, its DKG is that of the config of the announced batch. */
  lemma EonsMatchBatches(app: App, msg: Message, sender: Address, i: nat)
    requires app.Guarded() && i < |Deliver(app, msg, sender).events| && Deliver(app, msg, sender).events[i].EonStarted?
    ensures AnnouncesEon(app, Deliver(app, msg, sender).app, Deliver(app, msg, sender).events[i])
  {
    match msg
    case BatchConfigMsg(c) => ConfigMatchesBatch(app, c, sender, i);
    case BatchConfigStartedMsg(_) => assert false;
    case CheckInMsg(_) => assert false;
    case EonStartVoteMsg(b) => VoteMatchesBatch(app, b, sender, i);
    case DKGMsg(_, _, _, _) => assert false;
  }

  lemma NewEonForConfig(app: App, c: Config)
    requires app.Guarded()
    ensures GetConfig(app.configs + [c], c.startBatchIndex) == |app.configs|
  {
  }

  /** The source converts thresholds to signed integers: a config with one of 2^63 or more
      is taken for valid, and then a single vote decides. */
  lemma OneVoteDecides(c: Config, sender: Address, vote: Config)
    requires c.keypers != []
    ensures c.threshold >= TWO_64 / 2 ==> EnsureValid(c)
    ensures Decided(NewPoll<Config>(), sender, vote, c.threshold) <==> (c.threshold <= 1 || c.threshold >= TWO_64 / 2)
  {
    var p := Voted(NewPoll<Config>(), sender, vote);
    assert Voters(p.votes, Place<Config>([], vote)) == {sender};
  }
}
