/** Whole runs of the replicated application, from genesis on. */
module AppRuns {
  import opened Outcome
  import opened Addresses
  import opened Widths
  import opened Configs
  import opened Voting
  import opened Validators
  import opened Observe
  import opened ShielderApps

  datatype Op = Tx(msg: Message, sender: Address) | EndOfBlock

  /** The app, the height of the block being built, and all events emitted so far. */
  datatype Chain = Chain(app: App, height: int, log: seq<At<Event>>)

  function Stamp(events: seq<Event>, height: int): (r: seq<At<Event>>)
    ensures |r| == |events| && forall i :: 0 <= i < |r| ==> r[i] == At(height, events[i])
  {
    seq(|events|, i requires 0 <= i < |events| => At(height, events[i]))
  }

  function Next(chain: Chain, op: Op, placeholder: Key): (chain': Chain)
    requires chain.app.Guarded()
    ensures chain'.app.Guarded()
  {
    match op
    case Tx(msg, sender) =>
      var d := Deliver(chain.app, msg, sender);
      Chain(d.app, chain.height, chain.log + Stamp(d.events, chain.height))
    case EndOfBlock => Chain(BlockEnded(chain.app, placeholder), chain.height + 1, chain.log)
  }

  function Exec(chain: Chain, ops: seq<Op>, placeholder: Key): (chain': Chain)
    requires chain.app.Guarded()
    ensures chain'.app.Guarded()
    decreases |ops|
  {
    if ops == [] then chain else Exec(Next(chain, ops[0], placeholder), ops[1..], placeholder)
  }

  function Start(keypers: seq<Address>, threshold: uint64, validators: seq<ValidatorUpdate>): (chain: Chain)
    ensures chain.app.Guarded()
  {
    Chain(Genesis(keypers, threshold, validators), 1, [])
  }

  // ----- eons are numbered 1, 2, 3, ...

  function StartedEons(log: seq<At<Event>>): nat {
    if log == [] then 0
    else StartedEons(log[..|log| - 1]) + if log[|log| - 1].msg.EonStarted? then 1 else 0
  }

  /** An event may follow a log: a started eon takes the next number, and a DKG message
      belongs to an eon that has started. */
  predicate Fits(log: seq<At<Event>>, e: Event) {
    && (e.EonStarted? ==> e.eon == StartedEons(log) + 1)
    && (e.DKGMessage? ==> 1 <= e.eon <= StartedEons(log))
  }

  ghost predicate WellNumbered(log: seq<At<Event>>) {
    forall i :: 0 <= i < |log| ==> Fits(log[..i], log[i].msg)
  }

  lemma AppendNumbered(log: seq<At<Event>>, e: At<Event>)
    requires WellNumbered(log) && Fits(log, e.msg)
    ensures WellNumbered(log + [e])
    ensures StartedEons(log + [e]) == StartedEons(log) + if e.msg.EonStarted? then 1 else 0
  {
    assert (log + [e])[..|log|] == log;
    forall i | 0 <= i < |log + [e]|
      ensures Fits((log + [e])[..i], (log + [e])[i].msg)
    {
      if i < |log| {
        assert (log + [e])[..i] == log[..i];
      }
    }
  }

  ghost predicate LogOk(chain: Chain) {
    && WellNumbered(chain.log) && StartedEons(chain.log) == chain.app.eonCounter
    && Sorted(chain.log) && forall i :: 0 <= i < |chain.log| ==> chain.log[i].height <= chain.height
  }

  lemma OneEvent(log: seq<At<Event>>, e: Event, height: int)
    requires WellNumbered(log) && Fits(log, e)
    ensures WellNumbered(log + Stamp([e], height))
    ensures StartedEons(log + Stamp([e], height)) == StartedEons(log) + if e.EonStarted? then 1 else 0
  {
    assert Stamp([e], height) == [At(height, e)];
    AppendNumbered(log, At(height, e));
  }

  lemma TwoEvents(log: seq<At<Event>>, e: Event, e': Event, height: int)
    requires WellNumbered(log) && Fits(log, e) && Fits(log + [At(height, e)], e')
    ensures WellNumbered(log + Stamp([e, e'], height))
    ensures StartedEons(log + Stamp([e, e'], height))
         == StartedEons(log) + (if e.EonStarted? then 1 else 0) + if e'.EonStarted? then 1 else 0
  {
    AppendNumbered(log, At(height, e));
    AppendNumbered(log + [At(height, e)], At(height, e'));
    assert log + Stamp([e, e'], height) == log + [At(height, e)] + [At(height, e')];
  }

  /** The events of a delivery, when n eons have been started before. */
  predicate FittingEvents(events: seq<Event>, n: nat, n': nat) {
    || (events == [] && n' == n)
    || (|events| == 1 && n' == n && !events[0].EonStarted? && (events[0].DKGMessage? ==> 1 <= events[0].eon <= n))
    || (|events| == 1 && n' == n + 1 && events[0].EonStarted? && events[0].eon == n + 1)
    || (|events| == 2 && n' == n + 1 && events[0].ConfigAdded? && events[1].EonStarted? && events[1].eon == n + 1)
  }

  lemma ConfigFits(app: App, c: Option<Config>, sender: Address)
    requires app.Guarded()
    ensures var d := BatchConfigDelivered(app, c, sender); FittingEvents(d.events, app.eonCounter, d.app.eonCounter)
  {
  }

  lemma VoteFits(app: App, batchIndex: uint64, sender: Address)
    requires app.Guarded()
    ensures var d := EonStartVoteDelivered(app, batchIndex, sender); FittingEvents(d.events, app.eonCounter, d.app.eonCounter)
  {
  }

  lemma DeliverFits(app: App, msg: Message, sender: Address)
    requires app.Guarded() && EonsOk(app.dkgs, app.eonCounter)
    ensures FittingEvents(Deliver(app, msg, sender).events, app.eonCounter, Deliver(app, msg, sender).app.eonCounter)
  {
    match msg
    case BatchConfigMsg(c) => ConfigFits(app, c, sender);
    case BatchConfigStartedMsg(_) =>
    case CheckInMsg(_) =>
    case EonStartVoteMsg(b) => VoteFits(app, b, sender);
    case DKGMsg(_, _, _, _) =>
  }

  lemma FittingNumbers(log: seq<At<Event>>, events: seq<Event>, n': nat, height: int)
    requires WellNumbered(log) && FittingEvents(events, StartedEons(log), n')
    ensures WellNumbered(log + Stamp(events, height)) && StartedEons(log + Stamp(events, height)) == n'
  {
    if |events| == 0 {
      assert log + Stamp(events, height) == log;
    } else if |events| == 1 {
      assert events == [events[0]];
      OneEvent(log, events[0], height);
    } else {
      assert events == [events[0], events[1]];
      AppendNumbered(log, At(height, events[0]));
      TwoEvents(log, events[0], events[1], height);
    }
  }

  lemma SortedStamp(log: seq<At<Event>>, events: seq<Event>, height: int)
    requires Sorted(log) && forall i :: 0 <= i < |log| ==> log[i].height <= height
    ensures Sorted(log + Stamp(events, height))
    ensures forall i :: 0 <= i < |log + Stamp(events, height)| ==> (log + Stamp(events, height))[i].height <= height
  {
  }

  lemma TxKeepsLogOk(chain: Chain, d: Delivered)
    requires LogOk(chain) && FittingEvents(d.events, chain.app.eonCounter, d.app.eonCounter)
    ensures LogOk(Chain(d.app, chain.height, chain.log + Stamp(d.events, chain.height)))
  {
    FittingNumbers(chain.log, d.events, d.app.eonCounter, chain.height);
    SortedStamp(chain.log, d.events, chain.height);
  }

  lemma NextKeepsLogOk(chain: Chain, op: Op, placeholder: Key)
    requires Inv(chain.app) && LogOk(chain)
    ensures Inv(Next(chain, op, placeholder).app) && LogOk(Next(chain, op, placeholder))
  {
    match op {
      case Tx(msg, sender) =>
        DeliverKeepsInv(chain.app, msg, sender);
        DeliverFits(chain.app, msg, sender);
        TxKeepsLogOk(chain, Deliver(chain.app, msg, sender));
      case EndOfBlock =>
        EndBlockKeepsInv(chain.app, placeholder);
    }
  }

  lemma {:induction false} ExecKeepsLogOk(chain: Chain, ops: seq<Op>, placeholder: Key)
    requires Inv(chain.app) && LogOk(chain)
    ensures Inv(Exec(chain, ops, placeholder).app) && LogOk(Exec(chain, ops, placeholder))
    decreases |ops|
  {
    if ops != [] {
      NextKeepsLogOk(chain, ops[0], placeholder);
      ExecKeepsLogOk(Next(chain, ops[0], placeholder), ops[1..], placeholder);
    }
  }

  lemma GenesisOk(keypers: seq<Address>, threshold: uint64, validators: seq<ValidatorUpdate>)
    requires EnsureValid(GenesisConfig(keypers, threshold))
    ensures Inv(Start(keypers, threshold, validators).app) && LogOk(Start(keypers, threshold, validators))
  {
    NewPollOpen<Config>(AsInt(threshold));
  }

  /** In every run the started eons are numbered 1, 2, 3, ... in order, DKG messages
      are emitted only for eons that have started, and no poll has a winner between
      deliveries. */
  lemma RunNumbersEons(keypers: seq<Address>, threshold: uint64, validators: seq<ValidatorUpdate>,
                       ops: seq<Op>, placeholder: Key)
    requires EnsureValid(GenesisConfig(keypers, threshold))
    ensures var chain := Exec(Start(keypers, threshold, validators), ops, placeholder);
      WellNumbered(chain.log) && Sorted(chain.log) && Inv(chain.app)
  {
    GenesisOk(keypers, threshold, validators);
    ExecKeepsLogOk(Start(keypers, threshold, validators), ops, placeholder);
  }

  // ----- validators

  /** Update lists that the blocks of a run may return: one for each block, none for
      transactions. */
  ghost predicate UpdatesOf(chain: Chain, ops: seq<Op>, uss: seq<seq<ValidatorUpdate>>, placeholder: Key)
    requires chain.app.Guarded()
    decreases |ops|
  {
    && |uss| == |ops|
    && (ops != [] ==>
          var chain' := Next(chain, ops[0], placeholder);
          && (if ops[0].EndOfBlock? then UpdatesFor(chain.app.validators, chain'.app.validators, uss[0]) else uss[0] == [])
          && UpdatesOf(chain', ops[1..], uss[1..], placeholder))
  }

  /** What Tendermint makes of them. */
  function Fold(pm: Powermap, uss: seq<seq<ValidatorUpdate>>): Powermap
    decreases |uss|
  {
    if uss == [] then pm else Fold(ApplyUpdates(pm, uss[0]), uss[1..])
  }

  lemma {:induction false} CurrentPositive(configs: seq<Config>, app: App, placeholder: Key)
    requires AllPositive(app.validators)
    ensures AllPositive(CurrentValidators(configs, app, placeholder))
  {
    if configs != [] {
      PowerConserved(configs[|configs| - 1].keypers, app.identities, placeholder);
      CurrentPositive(configs[..|configs| - 1], app, placeholder);
    }
  }

  lemma {:induction false} FoldRefines(chain: Chain, ops: seq<Op>, uss: seq<seq<ValidatorUpdate>>, placeholder: Key)
    requires chain.app.Guarded() && AllPositive(chain.app.validators) && UpdatesOf(chain, ops, uss, placeholder)
    ensures Fold(chain.app.validators, uss) == Exec(chain, ops, placeholder).app.validators
    decreases |ops|
  {
    if ops != [] {
      var chain' := Next(chain, ops[0], placeholder);
      StepRefines(chain, ops[0], uss[0], placeholder);
      FoldRefines(chain', ops[1..], uss[1..], placeholder);
    }
  }

  lemma BlockEndedPositive(app: App, placeholder: Key)
    requires app.Guarded() && AllPositive(app.validators)
    ensures AllPositive(BlockEnded(app, placeholder).validators)
  {
    var app1 := MaybeUpdateValidators(MaybeStartConfig(app));
    CurrentPositive(app1.configs, app1, placeholder);
  }

  lemma DeliverKeepsValidators(app: App, msg: Message, sender: Address)
    requires app.Guarded()
    ensures Deliver(app, msg, sender).app.validators == app.validators
  {
  }

  lemma StepRefines(chain: Chain, op: Op, us: seq<ValidatorUpdate>, placeholder: Key)
    requires chain.app.Guarded() && AllPositive(chain.app.validators)
    requires if op.EndOfBlock?
             then UpdatesFor(chain.app.validators, Next(chain, op, placeholder).app.validators, us) else us == []
    ensures ApplyUpdates(chain.app.validators, us) == Next(chain, op, placeholder).app.validators
    ensures AllPositive(Next(chain, op, placeholder).app.validators)
  {
    match op {
      case EndOfBlock =>
        BlockEndedPositive(chain.app, placeholder);
        UpdatesRefineExactly(chain.app.validators, BlockEnded(chain.app, placeholder).validators, us);
      case Tx(msg, sender) =>
        DeliverKeepsValidators(chain.app, msg, sender);
    }
  }

  /** Tendermint's validator set, starting from a genesis with distinct keys and
      positive powers and folding in the updates of all blocks, is the app's. */
  lemma TendermintAgrees(keypers: seq<Address>, threshold: uint64, genesis: seq<ValidatorUpdate>,
                         ops: seq<Op>, uss: seq<seq<ValidatorUpdate>>, placeholder: Key)
    requires forall i, j :: 0 <= i < j < |genesis| ==> genesis[i].key != genesis[j].key
    requires forall i :: 0 <= i < |genesis| ==> genesis[i].power > 0
    requires UpdatesOf(Start(keypers, threshold, genesis), ops, uss, placeholder)
    ensures Fold(ApplyUpdates(map[], genesis), uss)
         == Exec(Start(keypers, threshold, genesis), ops, placeholder).app.validators
  {
    GenesisAgrees(genesis);
    FoldRefines(Start(keypers, threshold, genesis), ops, uss, placeholder);
  }

  lemma SameParts<T>(a: seq<T>, b: seq<T>)
    requires a != [] && b != [] && a[0] == b[0] && a[1..] == b[1..]
    ensures a == b
  {
    assert a == [a[0]] + a[1..] && b == [b[0]] + b[1..];
  }

  /** The updates of a block are determined: they do not depend on the order of any
      map. */
  lemma {:induction false} UpdatesDetermined(chain: Chain, ops: seq<Op>, uss: seq<seq<ValidatorUpdate>>,
                                             vss: seq<seq<ValidatorUpdate>>, placeholder: Key)
    requires chain.app.Guarded()
    requires UpdatesOf(chain, ops, uss, placeholder) && UpdatesOf(chain, ops, vss, placeholder)
    ensures uss == vss
    decreases |ops|
  {
    if ops != [] {
      var chain' := Next(chain, ops[0], placeholder);
      if ops[0].EndOfBlock? {
        SortedListUnique(uss[0], vss[0], DiffPowermaps(chain.app.validators, chain'.app.validators));
      }
      UpdatesDetermined(chain', ops[1..], uss[1..], vss[1..], placeholder);
      SameParts(uss, vss);
    }
  }
}
