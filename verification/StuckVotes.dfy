/** When the keypers can still agree on a next config. A vote for a config cannot be taken
    back, so that votes for different ones may use up all voters. */
module StuckVotes {
  import opened Sets
  import opened Outcome
  import opened Addresses
  import opened Widths
  import opened Voting
  import opened Validators
  import opened Observe
  import opened ShielderApps
  import opened AppRuns
  import opened Quorums

  /** The keypers of the last config that have not voted yet. */
  function Undecided(app: App): set<Address>
    requires app.Guarded()
  {
    set a | a in app.Last().keypers && a !in app.configVoting.votes
  }

  /** Those that have voted for the config, or still may. */
  function Supporters(app: App, c: Config): set<Address>
    requires app.Guarded()
  {
    Voters(app.configVoting.votes, Place(app.configVoting.candidates, c)) + Undecided(app)
  }

  /** The config may follow the last one, and the votes it has and those still open suffice. */
  predicate MayWin(app: App, c: Config)
    requires app.Guarded()
  {
    && CheckConfig(app.Last(), c) && Undecided(app) != {}
    && |Supporters(app, c)| >= AsInt(app.Last().threshold)
  }

  // ----- if no config may win then none does

  ghost predicate Stuck(app: App)
    requires app.Guarded()
  {
    forall c :: !MayWin(app, c)
  }

  lemma PlaceAfter<C>(p: Poll<C>, sender: Address, c: C, c': C)
    requires forall a :: a in p.votes ==> p.votes[a] < |p.candidates|
    requires sender !in p.votes
    ensures var p' := Voted(p, sender, c);
      Voters(p'.votes, Place(p'.candidates, c'))
        == Voters(p.votes, Place(p.candidates, c')) + if c' == c then {sender} else {}
  {
    var p' := Voted(p, sender, c);
    PlaceInLonger(p.candidates, c, c');
    VotersAfter(p.votes, sender, Place(p.candidates, c), Place(p'.candidates, c'));
    if c' !in p.candidates {
      assert Voters(p.votes, Place(p.candidates, c')) == {} && Voters(p.votes, Place(p'.candidates, c')) == {};
    }
  }

  lemma {:induction false} PlaceInLonger<C>(candidates: seq<C>, c: C, c': C)
    ensures Place(candidates, c') < |candidates| <==> c' in candidates
    ensures c' in candidates ==> Place(candidates + [c], c') == Place(candidates, c')
    ensures c' !in candidates && c' == c ==> Place(candidates + [c], c') == |candidates|
    ensures c' !in candidates && c' != c ==> Place(candidates + [c], c') == |candidates| + 1
    decreases |candidates|
  {
    if candidates != [] {
      assert (candidates + [c])[1..] == candidates[1..] + [c];
      PlaceInLonger(candidates[1..], c, c');
    }
  }

  /** A vote leaves the supporters of its candidate, and takes one from all others. */
  lemma SupportersAfter(app: App, sender: Address, c: Config, c': Config)
    requires Inv(app) && sender in Undecided(app)
    ensures var after := app.(configVoting := Voted(app.configVoting, sender, c));
      && Undecided(after) == Undecided(app) - {sender}
      && Supporters(after, c') <= Supporters(app, c')
      && (c' == c ==> Supporters(after, c') == Supporters(app, c'))
  {
    PlaceAfter(app.configVoting, sender, c, c');
  }

  lemma StuckStaysOpen(app: App, sender: Address, c: Config)
    requires Inv(app) && Stuck(app) && sender in Undecided(app) && CheckConfig(app.Last(), c)
    ensures !Decided(app.configVoting, sender, c, app.Last().threshold)
    ensures Stuck(app.(configVoting := Voted(app.configVoting, sender, c)))
  {
    var after := app.(configVoting := Voted(app.configVoting, sender, c));
    var j := Place(app.configVoting.candidates, c);
    VotersAfter(app.configVoting.votes, sender, j, j);
    SmallerSet(Voters(after.configVoting.votes, j), Supporters(app, c));
    assert !MayWin(app, c);
    forall c'
      ensures !MayWin(after, c')
    {
      SupportersAfter(app, sender, c, c');
      SmallerSet(Supporters(after, c'), Supporters(app, c'));
      assert !MayWin(app, c');
    }
  }

  /** The same votes on the same last config, but for its flags. */
  lemma StuckSame(app: App, app': App)
    requires app.Guarded() && app'.Guarded() && Stuck(app)
    requires app'.configVoting == app.configVoting && SameVoters(app.Last(), app'.Last())
    requires app'.Last().startBatchIndex == app.Last().startBatchIndex
    ensures Stuck(app')
  {
    forall c
      ensures !MayWin(app', c)
    {
      assert !MayWin(app, c);
      assert Undecided(app') == Undecided(app);
    }
  }

  lemma ConfigVoteStaysStuck(app: App, msg: Option<Config>, sender: Address)
    requires Inv(app) && Stuck(app)
    ensures var after := BatchConfigDelivered(app, msg, sender).app; after.configs == app.configs && Stuck(after)
  {
    if msg.Some? && CheckConfig(app.Last(), msg.value) && sender in Undecided(app) {
      StuckStaysOpen(app, sender, msg.value);
    }
  }

  lemma EonVoteStaysStuck(app: App, b: uint64, sender: Address)
    requires Inv(app) && Stuck(app)
    ensures var after := EonStartVoteDelivered(app, b, sender).app; after.configs == app.configs && Stuck(after)
  {
    StuckSame(app, EonStartVoteDelivered(app, b, sender).app);
  }

  lemma StartVoteStaysStuck(app: App, i: uint64, sender: Address)
    requires Inv(app) && Stuck(app)
    ensures var after := BatchConfigStartedDelivered(app, i, sender).app; after.configs == app.configs && Stuck(after)
  {
    StuckSame(app, BatchConfigStartedDelivered(app, i, sender).app);
  }

  lemma CheckInStaysStuck(app: App, keys: Option<CheckInKeys>, sender: Address)
    requires Inv(app) && Stuck(app)
    ensures var after := CheckInDelivered(app, keys, sender).app; after.configs == app.configs && Stuck(after)
  {
    StuckSame(app, CheckInDelivered(app, keys, sender).app);
  }

  lemma DeliverStaysStuck(app: App, msg: Message, sender: Address)
    requires Inv(app) && Stuck(app)
    ensures var after := Deliver(app, msg, sender).app; after.configs == app.configs && Stuck(after)
  {
    match msg
    case BatchConfigMsg(c) => ConfigVoteStaysStuck(app, c, sender);
    case BatchConfigStartedMsg(i) => StartVoteStaysStuck(app, i, sender);
    case CheckInMsg(keys) => CheckInStaysStuck(app, keys, sender);
    case EonStartVoteMsg(b) => EonVoteStaysStuck(app, b, sender);
    case DKGMsg(_, _, _, _) =>
  }

  lemma BlockStaysStuck(app: App, placeholder: Key)
    requires Inv(app) && Stuck(app)
    ensures var after := BlockEnded(app, placeholder); |after.configs| == |app.configs| && Stuck(after)
  {
    SameVotersAfterBlock(app, placeholder);
    assert SameVoters(app.Last(), BlockEnded(app, placeholder).Last());
    StuckSame(app, BlockEnded(app, placeholder));
  }

  lemma NextStaysStuck(chain: Chain, op: Op, placeholder: Key)
    requires Inv(chain.app) && Stuck(chain.app)
    ensures var next := Next(chain, op, placeholder);
      Inv(next.app) && Stuck(next.app) && |next.app.configs| == |chain.app.configs|
  {
    match op
    case Tx(msg, sender) =>
      DeliverKeepsInv(chain.app, msg, sender);
      DeliverStaysStuck(chain.app, msg, sender);
    case EndOfBlock =>
      EndBlockKeepsInv(chain.app, placeholder);
      BlockStaysStuck(chain.app, placeholder);
  }

  lemma {:induction false} StuckForEver(chain: Chain, ops: seq<Op>, placeholder: Key)
    requires Inv(chain.app) && Stuck(chain.app)
    ensures |Exec(chain, ops, placeholder).app.configs| == |chain.app.configs|
    decreases |ops|
  {
    if ops != [] {
      NextStaysStuck(chain, ops[0], placeholder);
      StuckForEver(Next(chain, ops[0], placeholder), ops[1..], placeholder);
    }
  }

  // ----- if a config may win then those that have not voted can make it win

  lemma LastVoteDecides(app: App, sender: Address, c: Config)
    requires Inv(app) && MayWin(app, c) && Undecided(app) == {sender}
    ensures Decided(app.configVoting, sender, c, app.Last().threshold)
  {
    var j := Place(app.configVoting.candidates, c);
    VotersAfter(app.configVoting.votes, sender, j, j);
  }

  lemma VoteCounted(app: App, sender: Address, c: Config)
    requires app.Guarded() && CheckConfig(app.Last(), c) && sender in Undecided(app)
    ensures BatchConfigDelivered(app, Some(c), sender).app ==
      if Decided(app.configVoting, sender, c, app.Last().threshold) then AfterNewConfig(app, c).app
      else app.(configVoting := Voted(app.configVoting, sender, c))
  {
  }

  lemma StillPossible(app: App, sender: Address, c: Config)
    requires Inv(app) && MayWin(app, c) && sender in Undecided(app)
    requires !Decided(app.configVoting, sender, c, app.Last().threshold)
    ensures var after := app.(configVoting := Voted(app.configVoting, sender, c));
      MayWin(after, c) && Undecided(after) == Undecided(app) - {sender}
  {
    if Undecided(app) == {sender} {
      LastVoteDecides(app, sender, c);
      assert false;
    }
    SupportersAfter(app, sender, c, c);
    assert Undecided(app) == Undecided(app) - {sender} + {sender};
  }

  /** One more vote for the config decides, or leaves it possible. */
  lemma VoteFor(app: App, sender: Address, c: Config)
    requires Inv(app) && MayWin(app, c) && sender in Undecided(app)
    ensures var after := BatchConfigDelivered(app, Some(c), sender).app;
      || |after.configs| > |app.configs|
      || (after.configs == app.configs && MayWin(after, c) && Undecided(after) == Undecided(app) - {sender})
  {
    VoteCounted(app, sender, c);
    if !Decided(app.configVoting, sender, c, app.Last().threshold) {
      StillPossible(app, sender, c);
    }
  }

  lemma {:induction false} VotesForWin(chain: Chain, c: Config, placeholder: Key) returns (ops: seq<Op>)
    requires Inv(chain.app) && MayWin(chain.app, c)
    ensures |Exec(chain, ops, placeholder).app.configs| > |chain.app.configs|
    decreases |Undecided(chain.app)|
  {
    var sender := Pick(Undecided(chain.app));
    var op := Tx(BatchConfigMsg(Some(c)), sender);
    var next := Next(chain, op, placeholder);
    VoteFor(chain.app, sender, c);
    DeliverKeepsInv(chain.app, BatchConfigMsg(Some(c)), sender);
    if |next.app.configs| > |chain.app.configs| {
      ops := [op];
      assert Exec(chain, ops, placeholder) == Exec(next, [], placeholder);
    } else {
      var rest := VotesForWin(next, c, placeholder);
      ops := [op] + rest;
      assert ops[1..] == rest;
    }
  }

  /** Whatever anybody does, there will be no further config, exactly if the votes still open
      suffice for none. */
  lemma NextConfigExactly(chain: Chain, placeholder: Key)
    requires Inv(chain.app)
    ensures (exists ops :: |Exec(chain, ops, placeholder).app.configs| > |chain.app.configs|) <==>
      exists c :: MayWin(chain.app, c)
  {
    if c :| MayWin(chain.app, c) {
      var ops := VotesForWin(chain, c, placeholder);
      assert |Exec(chain, ops, placeholder).app.configs| > |chain.app.configs|;
    } else {
      forall ops
        ensures |Exec(chain, ops, placeholder).app.configs| == |chain.app.configs|
      {
        StuckForEver(chain, ops, placeholder);
      }
    }
  }

  lemma FirstHalf(app: App, c: Config, sender: Address)
    requires app.Guarded() && app.Last().threshold == 2 && sender in app.Last().keypers && CheckConfig(app.Last(), c)
    requires app.configVoting == NewPoll()
    ensures BatchConfigDelivered(app, Some(c), sender).app == app.(configVoting := Poll(map[sender := 0], [c]))
  {
    assert Voters(map[sender := 0], 0) == {sender};
  }

  lemma SecondHalf(app: App, c: Config, sender: Address, c': Config, sender': Address)
    requires app.Guarded() && app.Last().threshold == 2 && sender in app.Last().keypers && CheckConfig(app.Last(), c)
    requires app.configVoting == Poll(map[sender' := 0], [c']) && sender != sender' && c != c'
    ensures BatchConfigDelivered(app, Some(c), sender).app
         == app.(configVoting := Poll(map[sender' := 0, sender := 1], [c', c]))
  {
    assert [c'][1..] == [] && Place([c'], c) == 1;
    assert Voters(map[sender' := 0, sender := 1], 1) == {sender};
  }

  lemma ExecTwo(chain: Chain, o1: Op, o2: Op, placeholder: Key)
    requires chain.app.Guarded()
    ensures Exec(chain, [o1, o2], placeholder) == Next(Next(chain, o1, placeholder), o2, placeholder)
  {
    assert [o1] + [o2] == [o1, o2] && [] + [o1] == [o1];
    ExecSnoc(chain, [o1], o2, placeholder);
    ExecSnoc(chain, [], o1, placeholder);
  }

  /** Two keypers that both must agree, and vote for different configs: from then on there is
      no further config. */
  lemma SplitVote(c1: Config, c2: Config, validators: seq<ValidatorUpdate>, ops: seq<Op>, placeholder: Key)
    requires CheckConfig(GenesisConfig([1, 2], 2), c1) && CheckConfig(GenesisConfig([1, 2], 2), c2) && c1 != c2
    ensures Genuine([1, 2], 2)
    ensures var votes := [Tx(BatchConfigMsg(Some(c1)), 1), Tx(BatchConfigMsg(Some(c2)), 2)];
      |Exec(Exec(Start([1, 2], 2, validators), votes, placeholder), ops, placeholder).app.configs| == 1
  {
    var o1, o2 := Tx(BatchConfigMsg(Some(c1)), 1), Tx(BatchConfigMsg(Some(c2)), 2);
    var start := Start([1, 2], 2, validators);
    var app := Genesis([1, 2], 2, validators);
    var chain := Exec(start, [o1, o2], placeholder);
    ExecTwo(start, o1, o2, placeholder);
    FirstHalf(app, c1, 1);
    SecondHalf(app.(configVoting := Poll(map[1 := 0], [c1])), c2, 2, c1, 1);
    RunBacked([1, 2], 2, validators, [o1, o2], placeholder);
    assert Undecided(chain.app) == {};
    StuckForEver(chain, ops, placeholder);
  }
}
