/** The config contract: a sequence of batch configs that is extended and cut
    back at its end, with enough notice that a batch that has opened never
    changes its rules. */
module Configs {
  import opened Addresses
  import opened Widths

  datatype BatchConfig = BatchConfig(
    startBatchIndex: uint64,
    startBlockNumber: uint64,
    keypers: seq<Address>,
    threshold: uint64,
    batchSpan: uint64,
    batchSizeLimit: uint64,
    transactionSizeLimit: uint64,
    transactionGasLimit: uint64,
    feeReceiver: Address,
    targetAddress: Address,
    targetFunctionSelector: nat,
    executionTimeout: uint64)
  {
    predicate Active() {
      batchSpan > 0
    }
  }

  const ZERO_CONFIG := BatchConfig(0, 0, [], 0, 0, 0, 0, 0, 0, 0, 0, 0)

  /** How a contract call ends. Failed calls leave no trace in the state; a failed
      `assert` is kept apart from the reverts the contract intends. */
  datatype CallResult<+T> = Returned(value: T) | Reverted(reason: string) | AssertFailed

  /** What a call does to a contract's state: the new state if it returns, the old
      one if it fails. */
  ghost predicate Effect<T>(expected: CallResult<T>, r: CallResult<()>, before: T, after: T) {
    match expected
    case Returned(s) => r.Returned? && after == s
    case Reverted(reason) => r == Reverted(reason) && after == before
    case AssertFailed => r.AssertFailed? && after == before
  }

  datatype State = State(configs: seq<BatchConfig>, nextConfig: BatchConfig, headsUp: uint64, owner: Address)

  function InitialState(headsUp: uint64, owner: Address): State {
    State([ZERO_CONFIG], ZERO_CONFIG, headsUp, owner)
  }

  // ----- queries

  /** The last config that starts at or before the batch. */
  function ConfigIndex(configs: seq<BatchConfig>, batchIndex: uint64): (r: CallResult<nat>)
    ensures r.Returned? ==>
      && r.value < |configs| && configs[r.value].startBatchIndex <= batchIndex
      && forall j :: r.value < j < |configs| ==> configs[j].startBatchIndex > batchIndex
    ensures !r.Returned? ==> r == AssertFailed && forall j :: 0 <= j < |configs| ==> configs[j].startBatchIndex > batchIndex
  {
    if configs == [] then AssertFailed
    else if configs[|configs| - 1].startBatchIndex <= batchIndex then Returned(|configs| - 1)
    else ConfigIndex(configs[..|configs| - 1], batchIndex)
  }

  /** The index is characterized by what `ConfigIndex` promises. */
  lemma ConfigIndexUnique(configs: seq<BatchConfig>, batchIndex: uint64, i: nat)
    requires i < |configs| && configs[i].startBatchIndex <= batchIndex
    requires forall j :: i < j < |configs| ==> configs[j].startBatchIndex > batchIndex
    ensures ConfigIndex(configs, batchIndex) == Returned(i)
  {
    var r := ConfigIndex(configs, batchIndex);
    assert r.Returned?;
  }

  /** Submission start, end and execution timeout of a batch. */
  function BatchBoundaryBlocks(c: BatchConfig, batchIndex: uint64): CallResult<(uint64, uint64, uint64)> {
    if !(c.batchSpan > 0) then AssertFailed
    else if !(batchIndex >= c.startBatchIndex) then AssertFailed
    else
      var relativeBatchIndex := batchIndex - c.startBatchIndex;
      var end := c.startBlockNumber + relativeBatchIndex * c.batchSpan + c.batchSpan;
      if end >= TWO_64 then Reverted("overflow")
      else
        var start := end - c.batchSpan;
        var start' := if relativeBatchIndex >= 1 then start - c.batchSpan else start;
        var timeout := end + c.executionTimeout;
        if timeout >= TWO_64 then Reverted("overflow")
        else BoundaryInRange(c, relativeBatchIndex); Returned((start', end, timeout))
  }

  lemma BoundaryInRange(c: BatchConfig, rel: int)
    requires rel >= 0
    ensures rel * c.batchSpan >= 0
    ensures rel >= 1 ==> rel * c.batchSpan >= c.batchSpan
  {
    if rel >= 1 {
      assert rel * c.batchSpan == c.batchSpan + (rel - 1) * c.batchSpan;
      assert (rel - 1) * c.batchSpan >= 0;
    }
  }

  /** The block at which a batch opens for submissions: one span early, except for
      the first batch of a config. */
  function OpeningBlock(c: BatchConfig, batchIndex: int): int {
    var rel := batchIndex - c.startBatchIndex;
    c.startBlockNumber + (if rel >= 1 then rel - 1 else 0) * c.batchSpan
  }

  /** The block at which a batch closes. */
  function ClosingBlock(c: BatchConfig, batchIndex: int): int {
    c.startBlockNumber + (batchIndex - c.startBatchIndex + 1) * c.batchSpan
  }

  /** What the boundary query returns, in closed form. */
  lemma BoundariesMean(c: BatchConfig, batchIndex: uint64)
    requires c.Active() && batchIndex >= c.startBatchIndex
    ensures BatchBoundaryBlocks(c, batchIndex) != AssertFailed
    ensures BatchBoundaryBlocks(c, batchIndex).Returned? <==> ClosingBlock(c, batchIndex) + c.executionTimeout < TWO_64
    ensures BatchBoundaryBlocks(c, batchIndex).Returned? ==>
      BatchBoundaryBlocks(c, batchIndex).value
        == (OpeningBlock(c, batchIndex), ClosingBlock(c, batchIndex), ClosingBlock(c, batchIndex) + c.executionTimeout)
    ensures OpeningBlock(c, batchIndex) < ClosingBlock(c, batchIndex)
    ensures OpeningBlock(c, batchIndex) >= c.startBlockNumber
  {
    var rel := batchIndex - c.startBatchIndex;
    assert (rel + 1) * c.batchSpan == rel * c.batchSpan + c.batchSpan;
    if rel >= 1 {
      assert (rel - 1) * c.batchSpan == rel * c.batchSpan - c.batchSpan;
      BoundaryInRange(c, rel - 1);
    }
    BoundaryInRange(c, rel);
  }

  // ----- changes

  function SetNextConfig(s: State, sender: Address, c: BatchConfig): CallResult<State> {
    if sender != s.owner then Reverted("caller is not the owner") else Returned(s.(nextConfig := c))
  }

  function ScheduleNextConfig(s: State, sender: Address, block: uint64): CallResult<State>
    requires s.configs != []
  {
    var config, next := s.configs[|s.configs| - 1], s.nextConfig;
    var headsUp := if config.batchSpan > s.headsUp then config.batchSpan else s.headsUp;
    if sender != s.owner then Reverted("caller is not the owner")
    else if |s.configs| >= TWO_64 - 2 then Reverted("number of configs exceeds uint64")
    else if block + headsUp + 1 >= TWO_64 then Reverted("overflow")
    else if next.startBlockNumber < block + headsUp + 1 then Reverted("start block too early")
    else if config.batchSpan > 0 && next.startBatchIndex <= config.startBatchIndex then Reverted("start batch index too small")
    else if config.batchSpan > 0
         && config.startBlockNumber + config.batchSpan * (next.startBatchIndex - config.startBatchIndex)
            != next.startBlockNumber
    then Reverted("config transition not seamless")
    else if config.batchSpan == 0 && next.startBatchIndex != config.startBatchIndex
    then Reverted("transition from inactive config with wrong start index")
    else Returned(s.(configs := s.configs + [next], nextConfig := ZERO_CONFIG))
  }

  /** The configs left after popping all late ones off the end; the first config
      always stays. */
  function Kept(configs: seq<BatchConfig>, fromStartBlockNumber: uint64): (r: seq<BatchConfig>)
    ensures r <= configs
    ensures configs != [] ==> r != []
  {
    if |configs| <= 1 || configs[|configs| - 1].startBlockNumber < fromStartBlockNumber then configs
    else Kept(configs[..|configs| - 1], fromStartBlockNumber)
  }

  function UnscheduleConfigs(s: State, sender: Address, block: uint64, fromStartBlockNumber: uint64): CallResult<State> {
    var kept := Kept(s.configs, fromStartBlockNumber);
    if sender != s.owner then Reverted("caller is not the owner")
    else if fromStartBlockNumber <= block + s.headsUp then Reverted("from start block too early")
    else if |kept| >= |s.configs| then Reverted("no configs unscheduled")
    else Returned(s.(configs := kept))
  }

  // ----- the invariant of the config sequence

  /** Adjacent configs: after an active config the next one starts at a later batch
      and exactly on its batch boundary; after an inactive one it takes over the
      batch index. */
  predicate Seamless(c: BatchConfig, next: BatchConfig) {
    if c.Active()
    then next.startBatchIndex > c.startBatchIndex
      && next.startBlockNumber == c.startBlockNumber + c.batchSpan * (next.startBatchIndex - c.startBatchIndex)
    else next.startBatchIndex == c.startBatchIndex
  }

  ghost predicate Valid(s: State) {
    && s.configs != [] && s.configs[0] == ZERO_CONFIG
    && forall i {:trigger s.configs[i]} :: 0 <= i < |s.configs| - 1 ==> Seamless(s.configs[i], s.configs[i + 1])
  }

  lemma {:induction false} StartIndicesMonotone(s: State, i: nat, j: nat)
    requires Valid(s) && i <= j < |s.configs|
    ensures s.configs[i].startBatchIndex <= s.configs[j].startBatchIndex
    decreases j
  {
    if i < j {
      StartIndicesMonotone(s, i, j - 1);
      assert Seamless(s.configs[j - 1], s.configs[j]);
    }
  }

  /** Every batch has a config; the search loop never runs out. */
  lemma ConfigIndexFound(s: State, batchIndex: uint64)
    requires Valid(s)
    ensures ConfigIndex(s.configs, batchIndex).Returned?
  {
    assert s.configs[0].startBatchIndex <= batchIndex;
  }

  /** The last batch of an active config closes where its successor starts. */
  lemma BatchesTileBlocks(s: State, i: nat)
    requires Valid(s) && i + 1 < |s.configs| && s.configs[i].Active()
    ensures var c, next := s.configs[i], s.configs[i + 1];
      ClosingBlock(c, next.startBatchIndex - 1) == next.startBlockNumber
  {
    var c, next := s.configs[i], s.configs[i + 1];
    assert Seamless(c, next);
    assert (next.startBatchIndex - c.startBatchIndex) * c.batchSpan == c.batchSpan * (next.startBatchIndex - c.startBatchIndex);
  }

  // ----- the rules of a batch freeze when it opens

  /** The batch belongs to an active config and has opened by the given block. */
  predicate Opened(s: State, block: int, batchIndex: uint64) {
    var r := ConfigIndex(s.configs, batchIndex);
    r.Returned? && s.configs[r.value].Active() && OpeningBlock(s.configs[r.value], batchIndex) <= block
  }

  /** Everything the contracts look up about a batch: which config it belongs to,
      and that config with all boundaries, limits and the timeout in it. */
  predicate SameRules(s: State, s': State, batchIndex: uint64) {
    var r := ConfigIndex(s.configs, batchIndex);
    && r == ConfigIndex(s'.configs, batchIndex)
    && (r.Returned? ==> r.value < |s'.configs| && s.configs[r.value] == s'.configs[r.value])
  }

  lemma ScheduleKeepsValid(s: State, sender: Address, block: uint64)
    requires Valid(s) && ScheduleNextConfig(s, sender, block).Returned?
    ensures Valid(ScheduleNextConfig(s, sender, block).value)
  {
    var s' := ScheduleNextConfig(s, sender, block).value;
    var n := |s.configs|;
    forall i | 0 <= i < n
      ensures Seamless(s'.configs[i], s'.configs[i + 1])
    {
      if i < n - 1 {
        assert Seamless(s.configs[i], s.configs[i + 1]);
      }
    }
  }

  /** The new config starts after every batch that is already open. */
  lemma ScheduledAfterOpened(s: State, sender: Address, block: uint64, batchIndex: uint64)
    requires Valid(s) && Opened(s, block, batchIndex) && ScheduleNextConfig(s, sender, block).Returned?
    ensures s.nextConfig.startBatchIndex > batchIndex
  {
    var n, i := |s.configs|, ConfigIndex(s.configs, batchIndex).value;
    if i < n - 1 {
      StartIndicesMonotone(s, i + 1, n - 1);
    } else {
      NextBoundaryIsLater(s.configs[n - 1], s.nextConfig, block, batchIndex);
    }
  }

  lemma NextBoundaryIsLater(c: BatchConfig, next: BatchConfig, block: int, batchIndex: int)
    requires c.Active() && batchIndex >= c.startBatchIndex && OpeningBlock(c, batchIndex) <= block
    requires next.startBlockNumber >= block + c.batchSpan + 1
    requires c.startBlockNumber + c.batchSpan * (next.startBatchIndex - c.startBatchIndex) == next.startBlockNumber
    ensures next.startBatchIndex > batchIndex
  {
    LaterBoundary(c.batchSpan, batchIndex - c.startBatchIndex, next.startBatchIndex - c.startBatchIndex,
                  block - c.startBlockNumber);
  }

  lemma LaterBoundary(span: int, rel: int, rel': int, elapsed: int)
    requires span > 0 && rel >= 0
    requires (if rel >= 1 then rel - 1 else 0) * span <= elapsed
    requires span * rel' >= elapsed + span + 1
    ensures rel' > rel
  {
    SpanMonotone(span, rel', rel);
    assert (rel - 1) * span == span * rel - span;
    assert 0 * span == 0;
  }

  lemma SpanMonotone(span: int, a: int, b: int)
    requires span >= 0
    ensures a <= b ==> span * a <= span * b
  {
    if a <= b {
      assert span * (b - a) >= 0;
    }
  }

  lemma ScheduleFreezes(s: State, sender: Address, block: uint64, batchIndex: uint64)
    requires Valid(s) && Opened(s, block, batchIndex) && ScheduleNextConfig(s, sender, block).Returned?
    ensures SameRules(s, ScheduleNextConfig(s, sender, block).value, batchIndex)
  {
    ScheduledAfterOpened(s, sender, block, batchIndex);
    var s', i := ScheduleNextConfig(s, sender, block).value, ConfigIndex(s.configs, batchIndex).value;
    ConfigIndexUnique(s'.configs, batchIndex, i);
  }

  /** Popping stops at any config that starts before the given block. */
  lemma {:induction false} KeptContains(configs: seq<BatchConfig>, from: uint64, i: nat)
    requires i < |configs| && configs[i].startBlockNumber < from
    ensures i < |Kept(configs, from)|
  {
    if !(|configs| <= 1 || configs[|configs| - 1].startBlockNumber < from) {
      KeptContains(configs[..|configs| - 1], from, i);
    }
  }

  lemma UnscheduleFreezes(s: State, sender: Address, block: uint64, from: uint64, batchIndex: uint64)
    requires Valid(s) && Opened(s, block, batchIndex) && UnscheduleConfigs(s, sender, block, from).Returned?
    ensures Valid(UnscheduleConfigs(s, sender, block, from).value)
    ensures SameRules(s, UnscheduleConfigs(s, sender, block, from).value, batchIndex)
  {
    var s', i := UnscheduleConfigs(s, sender, block, from).value, ConfigIndex(s.configs, batchIndex).value;
    UnscheduleKeepsValid(s, sender, block, from);
    BoundariesMean(s.configs[i], batchIndex);
    KeptContains(s.configs, from, i);
    ConfigIndexUnique(s'.configs, batchIndex, i);
  }

  lemma UnscheduleKeepsValid(s: State, sender: Address, block: uint64, from: uint64)
    requires Valid(s) && UnscheduleConfigs(s, sender, block, from).Returned?
    ensures Valid(UnscheduleConfigs(s, sender, block, from).value)
  {
    var kept := Kept(s.configs, from);
    forall i | 0 <= i < |kept| - 1
      ensures Seamless(kept[i], kept[i + 1])
    {
      assert Seamless(s.configs[i], s.configs[i + 1]);
    }
  }

  // ----- whole runs

  datatype Op =
    | SetNext(sender: Address, config: BatchConfig)
    | Schedule(sender: Address)
    | Unschedule(sender: Address, from: uint64)

  function Apply(s: State, block: uint64, op: Op): (r: CallResult<State>)
    requires s.configs != []
    ensures r.Returned? ==> r.value.configs != []
  {
    match op
    case SetNext(sender, c) => SetNextConfig(s, sender, c)
    case Schedule(sender) => ScheduleNextConfig(s, sender, block)
    case Unschedule(sender, from) => UnscheduleConfigs(s, sender, block, from)
  }

  /** The state after a call, successful or not. */
  function After(s: State, block: uint64, op: Op): (s': State)
    requires s.configs != []
    ensures s'.configs != []
  {
    var r := Apply(s, block, op);
    if r.Returned? then r.value else s
  }

  lemma OpenedLater(s: State, block: int, block': int, batchIndex: uint64)
    requires Opened(s, block, batchIndex) && block <= block'
    ensures Opened(s, block', batchIndex)
  {
  }

  lemma StepFreezes(s: State, block: uint64, op: Op, batchIndex: uint64)
    requires Valid(s)
    ensures Valid(After(s, block, op))
    ensures Opened(s, block, batchIndex) ==>
      SameRules(s, After(s, block, op), batchIndex) && Opened(After(s, block, op), block, batchIndex)
  {
    var r := Apply(s, block, op);
    if r.Returned? {
      match op
      case SetNext(_, _) =>
      case Schedule(sender) =>
        ScheduleKeepsValid(s, sender, block);
        if Opened(s, block, batchIndex) { ScheduleFreezes(s, sender, block, batchIndex); }
      case Unschedule(sender, from) =>
        UnscheduleKeepsValid(s, sender, block, from);
        if Opened(s, block, batchIndex) { UnscheduleFreezes(s, sender, block, from, batchIndex); }
    }
  }

  /** Calls at non-decreasing block numbers, starting no earlier than `block`. */
  ghost predicate InOrder(block: int, calls: seq<(uint64, Op)>) {
    && (calls != [] ==> block <= calls[0].0)
    && forall i, j :: 0 <= i < j < |calls| ==> calls[i].0 <= calls[j].0
  }

  function Run(s: State, calls: seq<(uint64, Op)>): (s': State)
    requires s.configs != []
    ensures s'.configs != []
    decreases calls
  {
    if calls == [] then s else Run(After(s, calls[0].0, calls[0].1), calls[1..])
  }

  /** A batch's rules freeze when it opens: from then on no sequence of owner calls
      changes its config index, boundaries, limits or timeout. */
  lemma {:induction false} RulesFreeze(s: State, block: uint64, calls: seq<(uint64, Op)>, batchIndex: uint64)
    requires Valid(s) && Opened(s, block, batchIndex) && InOrder(block, calls)
    ensures Valid(Run(s, calls)) && SameRules(s, Run(s, calls), batchIndex)
    decreases calls
  {
    if calls != [] {
      var b, s' := calls[0].0, After(s, calls[0].0, calls[0].1);
      OpenedLater(s, block, b, batchIndex);
      StepFreezes(s, b, calls[0].1, batchIndex);
      RulesFreeze(s', b, calls[1..], batchIndex);
    }
  }

  /** Every state the owner can reach satisfies the invariant. */
  lemma {:induction false} ReachableValid(s: State, calls: seq<(uint64, Op)>)
    requires Valid(s)
    ensures Valid(Run(s, calls))
    decreases calls
  {
    if calls != [] {
      StepFreezes(s, calls[0].0, calls[0].1, 0);
      ReachableValid(After(s, calls[0].0, calls[0].1), calls[1..]);
    }
  }

  // ----- notice

  /** A config that starts no later than the heads-up after the block is announced: it can
      neither be dropped any more nor can another one be put in such a place. */
  predicate Announced(s: State, block: int, i: nat) {
    i < |s.configs| && s.configs[i].startBlockNumber <= block + s.headsUp
  }

  /** All announced configs are in both states, at the same places. */
  ghost predicate SameAnnounced(s: State, s': State, block: int) {
    s'.headsUp == s.headsUp
    && forall i: nat :: Announced(s, block, i) || Announced(s', block, i) ==>
         i < |s.configs| && i < |s'.configs| && s'.configs[i] == s.configs[i]
  }

  lemma AnnouncedLater(s: State, s': State, block: int, block': int)
    requires SameAnnounced(s, s', block') && block <= block'
    ensures SameAnnounced(s, s', block)
  {
    assert forall i: nat :: Announced(s, block, i) ==> Announced(s, block', i);
    assert forall i: nat :: Announced(s', block, i) ==> Announced(s', block', i);
  }

  lemma UnscheduleKeepsAnnounced(s: State, sender: Address, block: uint64, from: uint64)
    requires s.configs != [] && UnscheduleConfigs(s, sender, block, from).Returned?
    ensures SameAnnounced(s, UnscheduleConfigs(s, sender, block, from).value, block)
  {
    forall i: nat | Announced(s, block, i)
      ensures i < |Kept(s.configs, from)|
    {
      KeptContains(s.configs, from, i);
    }
  }

  /** No call gives shorter notice than the heads-up. */
  lemma StepKeepsAnnounced(s: State, block: uint64, op: Op)
    requires s.configs != []
    ensures SameAnnounced(s, After(s, block, op), block)
  {
    if op.Unschedule? && Apply(s, block, op).Returned? {
      UnscheduleKeepsAnnounced(s, op.sender, block, op.from);
    }
  }

  /** Notice: which configs start within the heads-up from a block on is settled at that
      block, whatever the owner does later. */
  lemma {:induction false} NoticeIsGiven(s: State, block: uint64, calls: seq<(uint64, Op)>)
    requires s.configs != [] && InOrder(block, calls)
    ensures SameAnnounced(s, Run(s, calls), block)
    decreases calls
  {
    if calls != [] {
      var b, s' := calls[0].0, After(s, calls[0].0, calls[0].1);
      StepKeepsAnnounced(s, b, calls[0].1);
      AnnouncedLater(s, s', block, b);
      NoticeIsGiven(s', b, calls[1..]);
      AnnouncedLater(s', Run(s', calls[1..]), block, b);
      StillSame(s, s', Run(s', calls[1..]), block);
    }
  }

  lemma StillSame(s: State, s': State, s'': State, block: int)
    requires SameAnnounced(s, s', block) && SameAnnounced(s', s'', block)
    ensures SameAnnounced(s, s'', block)
  {
    assert forall i: nat :: Announced(s, block, i) ==> Announced(s', block, i);
    assert forall i: nat :: Announced(s'', block, i) ==> Announced(s', block, i);
  }

  /** Calls by others than the owner change nothing. */
  lemma {:induction false} OnlyOwnerChanges(s: State, calls: seq<(uint64, Op)>)
    requires s.configs != [] && forall i :: 0 <= i < |calls| ==> calls[i].1.sender != s.owner
    ensures Run(s, calls) == s
    decreases calls
  {
    if calls != [] {
      OnlyOwnerChanges(s, calls[1..]);
    }
  }

  // ----- start blocks

  ghost predicate Increasing(configs: seq<BatchConfig>) {
    forall i, j :: 0 <= i < j < |configs| ==> configs[i].startBlockNumber < configs[j].startBlockNumber
  }

  ghost predicate StartsIncrease(s: State) {
    Increasing(s.configs)
  }

  /** What the contract does not check: a config that follows an inactive one starts
      after it. */
  predicate StartsLater(s: State, op: Op)
    requires s.configs != []
  {
    var last := s.configs[|s.configs| - 1];
    op.Schedule? && !last.Active() ==> s.nextConfig.startBlockNumber > last.startBlockNumber
  }

  /** Every successful scheduling in the run heeds it. */
  predicate Careful(s: State, calls: seq<(uint64, Op)>)
    requires s.configs != []
    decreases calls
  {
    calls != [] ==>
      && (Apply(s, calls[0].0, calls[0].1).Returned? ==> StartsLater(s, calls[0].1))
      && Careful(After(s, calls[0].0, calls[0].1), calls[1..])
  }

  ghost predicate AlwaysIncrease(s: State, calls: seq<(uint64, Op)>)
    requires s.configs != []
    decreases calls
  {
    StartsIncrease(s) && (calls != [] ==> AlwaysIncrease(After(s, calls[0].0, calls[0].1), calls[1..]))
  }

  lemma LaterStart(start: int, span: int, delta: int)
    requires span > 0 && delta > 0
    ensures start + span * delta > start
  {
    SpanMonotone(span, 1, delta);
  }

  /** A successor of an active config always starts later, by a whole number of spans. */
  lemma ActiveStartsLater(s: State, sender: Address, block: uint64)
    requires s.configs != [] && ScheduleNextConfig(s, sender, block).Returned?
    ensures s.configs[|s.configs| - 1].Active() ==>
      s.nextConfig.startBlockNumber > s.configs[|s.configs| - 1].startBlockNumber
  {
    var last := s.configs[|s.configs| - 1];
    if last.Active() {
      LaterStart(last.startBlockNumber, last.batchSpan, s.nextConfig.startBatchIndex - last.startBatchIndex);
    }
  }

  lemma IncreasingSnoc(configs: seq<BatchConfig>, next: BatchConfig)
    requires Increasing(configs) && configs != []
    ensures Increasing(configs + [next]) <==> next.startBlockNumber > configs[|configs| - 1].startBlockNumber
  {
    var all := configs + [next];
    assert all[|configs| - 1] == configs[|configs| - 1] && all[|configs|] == next;
  }

  lemma ScheduleAppends(s: State, sender: Address, block: uint64)
    requires s.configs != [] && ScheduleNextConfig(s, sender, block).Returned?
    ensures ScheduleNextConfig(s, sender, block).value.configs == s.configs + [s.nextConfig]
  {
  }

  lemma AppendedStartsLater(s: State, sender: Address, s': State)
    requires s.configs != [] && StartsIncrease(s) && s'.configs == s.configs + [s.nextConfig]
    requires var last := s.configs[|s.configs| - 1];
      last.Active() ==> s.nextConfig.startBlockNumber > last.startBlockNumber
    ensures StartsIncrease(s') <==> StartsLater(s, Schedule(sender))
  {
    IncreasingSnoc(s.configs, s.nextConfig);
  }

  lemma ScheduledStartsLater(s: State, sender: Address, block: uint64)
    requires s.configs != [] && StartsIncrease(s) && ScheduleNextConfig(s, sender, block).Returned?
    ensures StartsIncrease(ScheduleNextConfig(s, sender, block).value) <==> StartsLater(s, Schedule(sender))
  {
    ScheduleAppends(s, sender, block);
    ActiveStartsLater(s, sender, block);
    AppendedStartsLater(s, sender, ScheduleNextConfig(s, sender, block).value);
  }

  lemma StepIncreasesExactly(s: State, block: uint64, op: Op)
    requires Valid(s) && StartsIncrease(s)
    ensures StartsIncrease(After(s, block, op)) <==> (Apply(s, block, op).Returned? ==> StartsLater(s, op))
  {
    if Apply(s, block, op).Returned? && op.Schedule? {
      ScheduledStartsLater(s, op.sender, block);
    }
  }

  /** Start blocks increase in every state of a run exactly if every config that is
      scheduled after an inactive one starts later than that one. */
  lemma {:induction false} StartsIncreaseExactly(s: State, calls: seq<(uint64, Op)>)
    requires Valid(s) && StartsIncrease(s)
    ensures AlwaysIncrease(s, calls) <==> Careful(s, calls)
    decreases calls
  {
    if calls != [] {
      var s' := After(s, calls[0].0, calls[0].1);
      StepFreezes(s, calls[0].0, calls[0].1, 0);
      StepIncreasesExactly(s, calls[0].0, calls[0].1);
      if StartsIncrease(s') {
        StartsIncreaseExactly(s', calls[1..]);
      }
    }
  }

  lemma FromDeployment(headsUp: uint64, owner: Address, calls: seq<(uint64, Op)>)
    ensures AlwaysIncrease(InitialState(headsUp, owner), calls) <==> Careful(InitialState(headsUp, owner), calls)
  {
    StartsIncreaseExactly(InitialState(headsUp, owner), calls);
  }

  /** Where start blocks increase, unscheduling removes exactly the configs that start at
      or after the given block. */
  lemma {:induction false} KeptExactly(configs: seq<BatchConfig>, from: uint64, i: nat)
    requires Increasing(configs) && i < |configs|
    ensures i < |Kept(configs, from)| <==> i == 0 || configs[i].startBlockNumber < from
  {
    var n := |configs| - 1;
    if configs[n].startBlockNumber < from {
      assert configs[i].startBlockNumber <= configs[n].startBlockNumber;
    } else if 0 < n && i < n {
      KeptExactly(configs[..n], from, i);
    }
  }

  function Inactive(start: uint64): BatchConfig {
    ZERO_CONFIG.(startBlockNumber := start)
  }

  function DecreasingCalls(owner: Address): seq<(uint64, Op)> {
    [(0, SetNext(owner, Inactive(1000))), (0, Schedule(owner)), (0, SetNext(owner, Inactive(500))), (0, Schedule(owner))]
  }

  /** From deployment: an inactive config from block 1000 on, then one from block 500 on.
      Both are accepted. */
  lemma StartsMayDecrease(owner: Address)
    ensures Run(InitialState(0, owner), DecreasingCalls(owner)).configs == [ZERO_CONFIG, Inactive(1000), Inactive(500)]
  {
    var calls: seq<(uint64, Op)> := DecreasingCalls(owner);
    var two := State([ZERO_CONFIG, Inactive(1000)], ZERO_CONFIG, 0, owner);
    var four := State([ZERO_CONFIG, Inactive(1000), Inactive(500)], ZERO_CONFIG, 0, owner);
    assert calls[1..][1..] == calls[2..] && calls[2..][1..] == calls[3..];
    var one := two.(configs := [ZERO_CONFIG], nextConfig := Inactive(1000));
    var three := two.(nextConfig := Inactive(500));
    assert After(InitialState(0, owner), 0, calls[0].1) == one;
    assert After(one, 0, calls[1].1) == two;
    assert Run(InitialState(0, owner), calls) == Run(two, calls[2..]);
    assert After(two, 0, calls[2].1) == three;
    assert After(three, 0, calls[3].1) == four;
    assert |calls[3..]| == 1;
    assert Run(three, calls[3..]) == four;
  }

  // ----- the contract

  class ConfigContract {
    var configs: seq<BatchConfig>
    var nextConfig: BatchConfig
    const configChangeHeadsUpBlocks: uint64
    const owner: Address

    ghost function View(): State
      reads this
    {
      State(configs, nextConfig, configChangeHeadsUpBlocks, owner)
    }

    constructor (headsUp: uint64, owner: Address)
      ensures View() == InitialState(headsUp, owner)
      ensures Valid(View())
    {
      this.configs := [ZERO_CONFIG];
      this.nextConfig := ZERO_CONFIG;
      this.configChangeHeadsUpBlocks := headsUp;
      this.owner := owner;
    }

    method ConfigIndexForBatchIndex(batchIndex: uint64) returns (r: CallResult<nat>)
      ensures r == ConfigIndex(configs, batchIndex)
    {
      var i := |configs|;
      while i > 0
        invariant 0 <= i <= |configs|
        invariant forall j :: i <= j < |configs| ==> configs[j].startBatchIndex > batchIndex
      {
        i := i - 1;
        if configs[i].startBatchIndex <= batchIndex {
          ConfigIndexUnique(configs, batchIndex, i);
          return Returned(i);
        }
      }
      return AssertFailed;
    }

    /** The field setters of the next config, taken together. */
    method SetNext(sender: Address, c: BatchConfig) returns (r: CallResult<()>)
      modifies this`nextConfig
      ensures Effect(SetNextConfig(old(View()), sender, c),
                     r, old(View()), View())
    {
      if sender != owner {
        return Reverted("caller is not the owner");
      }
      nextConfig := c;
      return Returned(());
    }

    method Schedule(sender: Address, block: uint64) returns (r: CallResult<()>)
      requires configs != []
      modifies this
      ensures Effect(ScheduleNextConfig(old(View()), sender, block),
                     r, old(View()), View())
    {
      if sender != owner {
        return Reverted("caller is not the owner");
      }
      if |configs| >= TWO_64 - 2 {
        return Reverted("number of configs exceeds uint64");
      }
      var config := configs[|configs| - 1];

      var headsUp := configChangeHeadsUpBlocks;
      if config.batchSpan > headsUp {
        headsUp := config.batchSpan;
      }
      if block + headsUp + 1 >= TWO_64 {
        return Reverted("overflow");
      }
      if nextConfig.startBlockNumber < block + headsUp + 1 {
        return Reverted("start block too early");
      }

      if config.batchSpan > 0 {
        if nextConfig.startBatchIndex <= config.startBatchIndex {
          return Reverted("start batch index too small");
        }
        var batchDelta := nextConfig.startBatchIndex - config.startBatchIndex;
        if config.startBlockNumber + config.batchSpan * batchDelta != nextConfig.startBlockNumber {
          return Reverted("config transition not seamless");
        }
      } else {
        if nextConfig.startBatchIndex != config.startBatchIndex {
          return Reverted("transition from inactive config with wrong start index");
        }
      }
      configs := configs + [nextConfig];
      nextConfig := ZERO_CONFIG;
      return Returned(());
    }

    method Unschedule(sender: Address, block: uint64, fromStartBlockNumber: uint64) returns (r: CallResult<()>)
      requires configs != []
      modifies this`configs
      ensures Effect(UnscheduleConfigs(old(View()), sender, block, fromStartBlockNumber),
                     r, old(View()), View())
    {
      if sender != owner {
        return Reverted("caller is not the owner");
      }
      if fromStartBlockNumber <= block + configChangeHeadsUpBlocks {
        return Reverted("from start block too early");
      }
      var before := configs;
      var i := |configs| - 1;
      while i > 0
        invariant 0 <= i == |configs| - 1 && configs <= before
        invariant Kept(configs, fromStartBlockNumber) == Kept(before, fromStartBlockNumber)
      {
        if configs[i].startBlockNumber >= fromStartBlockNumber {
          configs := configs[..i];
        } else {
          break;
        }
        i := i - 1;
      }
      if |configs| >= |before| {
        return Reverted("no configs unscheduled");
      }
      return Returned(());
    }
  }
}
