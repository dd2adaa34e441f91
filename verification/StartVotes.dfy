/** Votes on starting the last config. The source keeps them in one set that it does not
    clear when a new config comes in, so that votes for one config may start the next. */
module StartVotes {
  import opened Sets
  import opened Outcome
  import opened Addresses
  import opened Widths
  import opened Voting
  import opened Validators
  import opened Observe
  import opened ShielderApps
  import opened AppRuns
  import opened Quorums

  // ----- what a block does to the last config

  /** The end of a block starts the last config if there are enough votes, whoever cast them. */
  lemma StartsExactly(app: App, placeholder: Key)
    requires app.Guarded()
    ensures BlockEnded(app, placeholder).Last().started
      <==> (app.Last().started || (|app.configs| >= 2 && |app.startedVotes| >= app.configs[|app.configs| - 2].threshold))
  {
  }

  function CheckedInPositions(keypers: seq<Address>, identities: map<Address, Key>): set<nat> {
    set i: nat | i < |keypers| && keypers[i] in identities
  }

  lemma {:induction false} CheckedInAre(keypers: seq<Address>, identities: map<Address, Key>)
    ensures CheckedInKeypers(keypers, identities) == |CheckedInPositions(keypers, identities)|
    decreases |keypers|
  {
    if keypers != [] {
      var n := |keypers| - 1;
      var before := CheckedInPositions(keypers[..n], identities);
      CheckedInAre(keypers[..n], identities);
      assert CheckedInPositions(keypers, identities) == if keypers[n] in identities then before + {n} else before;
    }
  }

  /** The last config takes over the validators once it is started and enough of its
      keypers have checked in. */
  lemma TakesOverExactly(app: App, placeholder: Key)
    requires app.Guarded()
    ensures BlockEnded(app, placeholder).Last().validatorsUpdated
      <==> (app.Last().validatorsUpdated
            || (BlockEnded(app, placeholder).Last().started
                && |CheckedInPositions(app.Last().keypers, app.identities)| >= app.Last().threshold))
  {
    CheckedInAre(app.Last().keypers, app.identities);
  }

  // ----- runs in which no vote is left over

  ghost predicate ForLast(app: App, past: seq<Op>, a: Address)
    requires app.Guarded()
  {
    && |app.configs| >= 2 && a in app.configs[|app.configs| - 2].keypers
    && Cast(past, a, BatchConfigStartedMsg(app.Last().configIndex))
  }

  /** All votes are for the last config, from keypers of the one before it. */
  ghost predicate AllForLast(app: App, past: seq<Op>)
    requires app.Guarded()
  {
    forall a :: a in app.startedVotes ==> ForLast(app, past, a)
  }

  /** No config comes in while votes on the start of another one are pending. */
  ghost predicate Careful(chain: Chain, ops: seq<Op>, placeholder: Key)
    requires chain.app.Guarded()
    decreases |ops|
  {
    ops == [] ||
    (var next := Next(chain, ops[0], placeholder);
     && (|next.app.configs| > |chain.app.configs| ==> chain.app.startedVotes == {})
     && Careful(next, ops[1..], placeholder))
  }

  lemma ForLastStays(app: App, app': App, past: seq<Op>, op: Op)
    requires app.Guarded() && app'.Guarded() && AllForLast(app, past) && |app'.configs| == |app.configs|
    requires forall i :: 0 <= i < |app.configs| ==> SameVoters(app.configs[i], app'.configs[i])
    requires app'.startedVotes <= app.startedVotes
    ensures AllForLast(app', past + [op])
  {
    forall a | a in app'.startedVotes
      ensures ForLast(app', past + [op], a)
    {
      var n := |app.configs|;
      assert ForLast(app, past, a);
      assert SameVoters(app.configs[n - 2], app'.configs[n - 2]) && SameVoters(app.configs[n - 1], app'.configs[n - 1]);
      CastLater(past, op, a, BatchConfigStartedMsg(app.Last().configIndex));
    }
  }

  lemma StartVoteForLast(app: App, i: uint64, sender: Address, past: seq<Op>)
    requires app.Guarded() && AllForLast(app, past)
    ensures AllForLast(BatchConfigStartedDelivered(app, i, sender).app, past + [Tx(BatchConfigStartedMsg(i), sender)])
  {
    var op := Tx(BatchConfigStartedMsg(i), sender);
    ForLastStays(app, app, past, op);
    CastNow(past, sender, BatchConfigStartedMsg(i));
  }

  /** A vote on an eon leaves the configs and the votes on starting. */
  lemma EonVoteApart(app: App, b: uint64, sender: Address)
    requires app.Guarded()
    ensures var app' := EonStartVoteDelivered(app, b, sender).app;
      app'.startedVotes == app.startedVotes && app'.configs == app.configs
  {
  }

  lemma ConfigVoteApart(app: App, c: Option<Config>, sender: Address)
    requires app.Guarded()
    ensures var app' := BatchConfigDelivered(app, c, sender).app;
      app'.startedVotes == app.startedVotes && (app'.configs == app.configs || |app'.configs| > |app.configs|)
  {
  }

  /** Other messages leave the configs and the votes, or add a config. */
  lemma OtherMessages(app: App, msg: Message, sender: Address)
    requires app.Guarded() && !msg.BatchConfigStartedMsg?
    ensures var app' := Deliver(app, msg, sender).app;
      app'.startedVotes == app.startedVotes && (app'.configs == app.configs || |app'.configs| > |app.configs|)
  {
    match msg
    case BatchConfigMsg(c) => ConfigVoteApart(app, c, sender);
    case CheckInMsg(_) =>
    case EonStartVoteMsg(b) => EonVoteApart(app, b, sender);
    case DKGMsg(_, _, _, _) =>
  }

  lemma NextForLast(chain: Chain, op: Op, placeholder: Key, past: seq<Op>)
    requires chain.app.Guarded() && AllForLast(chain.app, past)
    requires |Next(chain, op, placeholder).app.configs| > |chain.app.configs| ==> chain.app.startedVotes == {}
    ensures AllForLast(Next(chain, op, placeholder).app, past + [op])
  {
    match op {
      case EndOfBlock =>
        SameVotersAfterBlock(chain.app, placeholder);
        ForLastStays(chain.app, BlockEnded(chain.app, placeholder), past, op);
      case Tx(msg, sender) =>
        if msg.BatchConfigStartedMsg? {
          StartVoteForLast(chain.app, msg.configIndex, sender, past);
        } else {
          OtherMessages(chain.app, msg, sender);
          if chain.app.startedVotes != {} {
            ForLastStays(chain.app, Deliver(chain.app, msg, sender).app, past, op);
          }
        }
    }
  }

  lemma PastAndRest(past: seq<Op>, ops: seq<Op>)
    requires ops != []
    ensures past + [ops[0]] + ops[1..] == past + ops
  {
  }

  lemma {:induction false} CarefulForLast(chain: Chain, past: seq<Op>, ops: seq<Op>, placeholder: Key)
    requires chain.app.Guarded() && AllForLast(chain.app, past) && Careful(chain, ops, placeholder)
    ensures AllForLast(Exec(chain, ops, placeholder).app, past + ops)
    decreases |ops|
  {
    if ops == [] {
      assert past + ops == past;
    } else {
      NextForLast(chain, ops[0], placeholder, past);
      CarefulForLast(Next(chain, ops[0], placeholder), past + [ops[0]], ops[1..], placeholder);
      PastAndRest(past, ops);
    }
  }

  /** If a block starts the last config then enough keypers of the one before it have
      voted for that. */
  ghost predicate QuorumStarts(app: App, past: seq<Op>, placeholder: Key)
    requires app.Guarded()
  {
    !app.Last().started && BlockEnded(app, placeholder).Last().started ==>
      && |app.configs| >= 2
      && |Senders(past, app.configs[|app.configs| - 2].keypers, BatchConfigStartedMsg(app.Last().configIndex))|
         >= app.configs[|app.configs| - 2].threshold
  }

  lemma StartHasQuorum(app: App, past: seq<Op>, placeholder: Key)
    requires app.Guarded() && AllForLast(app, past)
    ensures QuorumStarts(app, past, placeholder)
  {
    StartsExactly(app, placeholder);
    if |app.configs| >= 2 {
      var all := Senders(past, app.configs[|app.configs| - 2].keypers, BatchConfigStartedMsg(app.Last().configIndex));
      forall a | a in app.startedVotes
        ensures a in all
      {
        assert ForLast(app, past, a);
      }
      SmallerSet(app.startedVotes, all);
    }
  }

  /** So it is in every careful run. */
  lemma StartsHaveQuorum(keypers: seq<Address>, threshold: uint64, validators: seq<ValidatorUpdate>,
                         ops: seq<Op>, placeholder: Key)
    requires Careful(Start(keypers, threshold, validators), ops, placeholder)
    ensures QuorumStarts(Exec(Start(keypers, threshold, validators), ops, placeholder).app, ops, placeholder)
  {
    var start := Start(keypers, threshold, validators);
    CarefulForLast(start, [], ops, placeholder);
    assert [] + ops == ops;
    StartHasQuorum(Exec(start, ops, placeholder).app, ops, placeholder);
  }

  // ----- exactly when votes are not left over

  /** A block with votes on the start of the last config, one by each of the voters. */
  function VotesToStart(configIndex: uint64, voters: seq<Address>): seq<Op> {
    seq(|voters|, i requires 0 <= i < |voters| => Tx(BatchConfigStartedMsg(configIndex), voters[i]))
  }

  /** The voters that count. */
  function Entitled(voters: seq<Address>, keypers: seq<Address>): set<Address> {
    set a | a in voters && a in keypers
  }

  function WithVotes(app: App, votes: set<Address>): App {
    app.(startedVotes := app.startedVotes + votes)
  }

  lemma EntitledMore(voter: Address, voters: seq<Address>, keypers: seq<Address>)
    ensures Entitled([voter] + voters, keypers) == Entitled([voter], keypers) + Entitled(voters, keypers)
  {
  }

  lemma OneVote(chain: Chain, voter: Address, placeholder: Key)
    requires chain.app.Guarded() && |chain.app.configs| >= 2 && !chain.app.Last().started
    ensures Next(chain, Tx(BatchConfigStartedMsg(chain.app.Last().configIndex), voter), placeholder).app
         == WithVotes(chain.app, Entitled([voter], chain.app.configs[|chain.app.configs| - 2].keypers))
  {
    var app := chain.app;
    var keypers := app.configs[|app.configs| - 2].keypers;
    assert Entitled([voter], keypers) == if voter in keypers then {voter} else {};
    if voter !in keypers {
      assert WithVotes(app, {}) == app;
    }
  }

  lemma TwiceWithVotes(app: App, a: set<Address>, b: set<Address>)
    ensures WithVotes(WithVotes(app, a), b) == WithVotes(app, a + b)
  {
    assert app.startedVotes + a + b == app.startedVotes + (a + b);
  }

  lemma VotesToStartMore(configIndex: uint64, voter: Address, voters: seq<Address>)
    ensures VotesToStart(configIndex, [voter] + voters)
         == [Tx(BatchConfigStartedMsg(configIndex), voter)] + VotesToStart(configIndex, voters)
  {
  }

  lemma {:induction false} VotesCount(chain: Chain, voters: seq<Address>, placeholder: Key)
    requires chain.app.Guarded() && |chain.app.configs| >= 2 && !chain.app.Last().started
    ensures Exec(chain, VotesToStart(chain.app.Last().configIndex, voters), placeholder).app
         == WithVotes(chain.app, Entitled(voters, chain.app.configs[|chain.app.configs| - 2].keypers))
    decreases |voters|
  {
    var keypers, index := chain.app.configs[|chain.app.configs| - 2].keypers, chain.app.Last().configIndex;
    if voters == [] {
      assert Entitled(voters, keypers) == {} && chain.app.startedVotes + {} == chain.app.startedVotes;
    } else {
      var op := Tx(BatchConfigStartedMsg(index), voters[0]);
      var next := Next(chain, op, placeholder);
      assert voters == [voters[0]] + voters[1..];
      OneVote(chain, voters[0], placeholder);
      VotesCount(next, voters[1..], placeholder);
      VotesToStartMore(index, voters[0], voters[1..]);
      ExecFirst(chain, op, VotesToStart(index, voters[1..]), placeholder);
      EntitledMore(voters[0], voters[1..], keypers);
      TwiceWithVotes(chain.app, Entitled([voters[0]], keypers), Entitled(voters[1..], keypers));
    }
  }

  lemma ExecFirst(chain: Chain, op: Op, ops: seq<Op>, placeholder: Key)
    requires chain.app.Guarded()
    ensures Exec(chain, [op] + ops, placeholder) == Exec(Next(chain, op, placeholder), ops, placeholder)
  {
    assert ([op] + ops)[1..] == ops;
  }

  /** The last config is started at the end of a block with just these votes. */
  predicate StartedBy(app: App, voters: seq<Address>, placeholder: Key)
    requires app.Guarded()
  {
    BlockEnded(Exec(Chain(app, 0, []), VotesToStart(app.Last().configIndex, voters), placeholder).app, placeholder).Last().started
  }

  lemma StartedWith(app: App, votes: set<Address>, placeholder: Key)
    requires app.Guarded() && |app.configs| >= 2 && !app.Last().started
    ensures WithVotes(app, votes).Guarded()
    ensures BlockEnded(WithVotes(app, votes), placeholder).Last().started
      <==> |app.startedVotes + votes| >= app.configs[|app.configs| - 2].threshold
  {
    StartsExactly(WithVotes(app, votes), placeholder);
  }

  lemma StartedByExactly(app: App, voters: seq<Address>, placeholder: Key)
    requires app.Guarded() && |app.configs| >= 2 && !app.Last().started
    ensures var before := app.configs[|app.configs| - 2];
      StartedBy(app, voters, placeholder) <==> |app.startedVotes + Entitled(voters, before.keypers)| >= before.threshold
  {
    VotesCount(Chain(app, 0, []), voters, placeholder);
    StartedWith(app, Entitled(voters, app.configs[|app.configs| - 2].keypers), placeholder);
  }

  function Members(l: seq<Address>): set<Address> {
    set a | a in l
  }

  /** Some members of a set, one after the other. */
  lemma Listing(s: set<Address>, k: nat) returns (l: seq<Address>)
    requires k <= |s|
    ensures Members(l) <= s && |Members(l)| == k
  {
    if k == 0 {
      l := [];
      assert Members(l) == {};
    } else {
      var a := Pick(s);
      var rest := Listing(s - {a}, k - 1);
      l := [a] + rest;
      assert Members(l) == {a} + Members(rest);
    }
  }

  /** Starting takes threshold many votes of keypers for it, exactly if no vote is left
      over, or the left over votes could not be filled up anyway. */
  lemma LeftOverVotes(app: App, placeholder: Key)
    requires ShielderApps.Inv(app) && |app.configs| >= 2 && !app.Last().started
    ensures var before := app.configs[|app.configs| - 2];
      (forall voters :: StartedBy(app, voters, placeholder) ==> |Entitled(voters, before.keypers)| >= before.threshold)
      <==> (app.startedVotes == {} || |app.startedVotes + Members(before.keypers)| < before.threshold)
  {
    var before := app.configs[|app.configs| - 2];
    if app.startedVotes == {} || |app.startedVotes + Members(before.keypers)| < before.threshold {
      forall voters | StartedBy(app, voters, placeholder)
        ensures |Entitled(voters, before.keypers)| >= before.threshold
      {
        NotLeftOver(app, voters, placeholder);
      }
    } else {
      var voters := TooFew(app, placeholder);
      assert StartedBy(app, voters, placeholder);
    }
  }

  lemma NotLeftOver(app: App, voters: seq<Address>, placeholder: Key)
    requires app.Guarded() && |app.configs| >= 2 && !app.Last().started && StartedBy(app, voters, placeholder)
    requires var before := app.configs[|app.configs| - 2];
      app.startedVotes == {} || |app.startedVotes + Members(before.keypers)| < before.threshold
    ensures |Entitled(voters, app.configs[|app.configs| - 2].keypers)| >= app.configs[|app.configs| - 2].threshold
  {
    var before := app.configs[|app.configs| - 2];
    StartedByExactly(app, voters, placeholder);
    SmallerSet(app.startedVotes + Entitled(voters, before.keypers), app.startedVotes + Members(before.keypers));
    assert app.startedVotes == {} ==> app.startedVotes + Entitled(voters, before.keypers) == Entitled(voters, before.keypers);
  }

  /** Some of others, fewer than required, that fill up what is there already. */
  lemma FillUp(there: set<Address>, others: set<Address>, required: nat) returns (l: seq<Address>)
    requires there != {} && there !! others && required > 0 && |there + others| >= required
    ensures Members(l) <= others && |Members(l)| < required && |there + Members(l)| >= required
  {
    l := Listing(others, if |others| < required then |others| else required - 1);
    assert |there + Members(l)| == |there| + |Members(l)|;
    assert |there + others| == |there| + |others|;
  }

  /** Fewer voters than the threshold that start the last config with the votes left over. */
  lemma TooFew(app: App, placeholder: Key) returns (voters: seq<Address>)
    requires app.Guarded() && |app.configs| >= 2 && !app.Last().started
    requires var before := app.configs[|app.configs| - 2];
      before.threshold > 0 && app.startedVotes != {} && |app.startedVotes + Members(before.keypers)| >= before.threshold
    ensures StartedBy(app, voters, placeholder)
    ensures |Entitled(voters, app.configs[|app.configs| - 2].keypers)| < app.configs[|app.configs| - 2].threshold
  {
    var before := app.configs[|app.configs| - 2];
    var others := Members(before.keypers) - app.startedVotes;
    assert app.startedVotes + Members(before.keypers) == app.startedVotes + others;
    voters := FillUp(app.startedVotes, others, before.threshold);
    assert Entitled(voters, before.keypers) == Members(voters);
    StartedByExactly(app, voters, placeholder);
  }

  /** The app after configs have been added, with one eon and votes on starting. */
  function Example(configs: seq<Config>, c: Config, startedVotes: set<Address>, validators: Powermap): App {
    App(configs, NewPoll(), map[], map[1 := c], 1, map[], startedVotes, validators)
  }

  lemma FirstAdded(c1: Config, validators: seq<ValidatorUpdate>)
    requires c1 == Config(0, [2], 1, 0, 1, false, false)
    ensures Deliver(Genesis([1], 1, validators), BatchConfigMsg(Some(c1)), 1).app
         == Example([GenesisConfig([1], 1), c1], c1, {}, FromList(validators))
  {
    OneVoteDecides(GenesisConfig([1], 1), 1, c1);
  }

  lemma SecondAdded(g: Config, c1: Config, c2: Config, votes: set<Address>, validators: Powermap)
    requires g.startBatchIndex == 0 && c1 == Config(0, [2], 1, 0, 1, false, false) && c2 == Config(0, [2], 1, 0, 2, false, false)
    ensures Deliver(Example([g, c1], c1, votes, validators), BatchConfigMsg(Some(c2)), 2).app
         == Example([g, c1, c2], c1, votes, validators)
  {
    OneVoteDecides(c1, 2, c2);
  }

  lemma ExecThree(chain: Chain, o1: Op, o2: Op, o3: Op, placeholder: Key)
    requires chain.app.Guarded()
    ensures Exec(chain, [o1, o2, o3], placeholder) == Next(Next(Next(chain, o1, placeholder), o2, placeholder), o3, placeholder)
  {
    assert [o1, o2] + [o3] == [o1, o2, o3] && [o1] + [o2] == [o1, o2] && [] + [o1] == [o1];
    ExecSnoc(chain, [o1, o2], o3, placeholder);
    ExecSnoc(chain, [o1], o2, placeholder);
    ExecSnoc(chain, [], o1, placeholder);
  }

  /** A run from genesis: keyper 1 votes for a first config, then on starting it, and the
      keyper 2 of that config votes for a second one. The end of the block starts the second
      config, although keyper 2 has not voted on that. */
  lemma StartedWithoutVotes(c1: Config, c2: Config, validators: seq<ValidatorUpdate>, placeholder: Key)
    requires c1 == Config(0, [2], 1, 0, 1, false, false) && c2 == Config(0, [2], 1, 0, 2, false, false)
    ensures Genuine([1], 1)
    ensures var ops := [Tx(BatchConfigMsg(Some(c1)), 1), Tx(BatchConfigStartedMsg(1), 1), Tx(BatchConfigMsg(Some(c2)), 2)];
      var app := Exec(Start([1], 1, validators), ops, placeholder).app;
      && app.configs[1..] == [c1, c2] && !app.Last().started && BlockEnded(app, placeholder).Last().started
      && Senders(ops, c1.keypers, BatchConfigStartedMsg(c2.configIndex)) == {}
  {
    var o1, o2, o3 := Tx(BatchConfigMsg(Some(c1)), 1), Tx(BatchConfigStartedMsg(1), 1), Tx(BatchConfigMsg(Some(c2)), 2);
    ThreeOps(c1, c2, validators, placeholder);
    StartsExactly(Example([GenesisConfig([1], 1), c1, c2], c1, {1}, FromList(validators)), placeholder);
    assert Senders([o1, o2, o3], c1.keypers, BatchConfigStartedMsg(2)) == {};
  }

  lemma ThreeOps(c1: Config, c2: Config, validators: seq<ValidatorUpdate>, placeholder: Key)
    requires c1 == Config(0, [2], 1, 0, 1, false, false) && c2 == Config(0, [2], 1, 0, 2, false, false)
    ensures Exec(Start([1], 1, validators),
                 [Tx(BatchConfigMsg(Some(c1)), 1), Tx(BatchConfigStartedMsg(1), 1), Tx(BatchConfigMsg(Some(c2)), 2)], placeholder).app
         == Example([GenesisConfig([1], 1), c1, c2], c1, {1}, FromList(validators))
  {
    ExecThree(Start([1], 1, validators), Tx(BatchConfigMsg(Some(c1)), 1), Tx(BatchConfigStartedMsg(1), 1),
              Tx(BatchConfigMsg(Some(c2)), 2), placeholder);
    FirstAdded(c1, validators);
    SecondAdded(GenesisConfig([1], 1), c1, c2, {1}, FromList(validators));
  }
}
