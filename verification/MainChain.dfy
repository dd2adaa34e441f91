/** The config, batcher and executor contracts as one transition system: any
    calls by anyone, in any order, while the block number grows.

    The world also records what was submitted to each batch and which half steps
    were carried out, which the contracts themselves only keep as hashes. */
module MainChain {
  import opened Addresses
  import opened Widths
  import opened Configs
  import opened Batches

  datatype HalfStep =
    | CipherExecuted(batch: uint64, txs: seq<Bytes>)
    | CipherSkipped(batch: uint64)
    | PlainExecuted(batch: uint64, txs: seq<Bytes>)

  datatype World = World(
    block: uint64,
    config: Configs.State,
    batcher: BatcherState,
    executor: ExecutorState,
    submitted: map<(uint64, TransactionType), seq<Bytes>>,
    executed: seq<HalfStep>)

  function Genesis(headsUp: uint64, owner: Address, block: uint64): World {
    World(block, InitialState(headsUp, owner), EMPTY_BATCHER, EMPTY_EXECUTOR, map[], [])
  }

  datatype Call =
    | Mine(blocks: nat)
    | Owner(op: Op)
    | SetMinFee(fee: uint64)
    | AddTx(batch: uint64, t: TransactionType, tx: Bytes, value: nat)
    | ExecuteCipher(sender: Address, batch: uint64, cipherBatchHash: Word, txs: seq<Bytes>, keyperIndex: uint64)
    | SkipCipher(batch: uint64)
    | ExecutePlain(batch: uint64, txs: seq<Bytes>)

  function Submitted(w: World, batch: uint64, t: TransactionType): seq<Bytes> {
    if (batch, t) in w.submitted then w.submitted[(batch, t)] else []
  }

  function Lift<S>(r: CallResult<S>, f: S -> World): CallResult<World> {
    match r
    case Returned(s) => Returned(f(s))
    case Reverted(reason) => Reverted(reason)
    case AssertFailed => AssertFailed
  }

  function Step(k: Keccak, w: World, call: Call): (r: CallResult<World>)
    requires w.config.configs != []
    ensures r.Returned? ==> r.value.config.configs != []
  {
    match call
    case Mine(blocks) =>
      if w.block + blocks >= TWO_64 then Reverted("no such block") else Returned(w.(block := w.block + blocks))
    case Owner(op) =>
      Lift(Apply(w.config, w.block, op), (c: Configs.State) => w.(config := c))
    case SetMinFee(fee) =>
      Returned(w.(batcher := w.batcher.(minFee := fee)))
    case AddTx(batch, t, tx, value) =>
      Lift(AddTransaction(k, w.batcher, w.config, w.block, batch, t, tx, value),
           (b: BatcherState) => w.(batcher := b, submitted := w.submitted[(batch, t) := Submitted(w, batch, t) + [tx]]))
    case ExecuteCipher(sender, batch, hash, txs, keyperIndex) =>
      Lift(ExecuteCipherBatch(k, w.executor, w.config, w.batcher, w.block, sender, batch, hash, txs, keyperIndex),
           (e: ExecutorState) => w.(executor := e, executed := w.executed +
             [if w.executor.numExecutionHalfSteps in e.receipts then CipherExecuted(batch, txs) else CipherSkipped(batch)]))
    case SkipCipher(batch) =>
      Lift(SkipCipherExecution(w.executor, w.config, w.block, batch),
           (e: ExecutorState) => w.(executor := e, executed := w.executed + [CipherSkipped(batch)]))
    case ExecutePlain(batch, txs) =>
      Lift(ExecutePlainBatch(k, w.executor, w.config, w.batcher, w.block, batch, txs),
           (e: ExecutorState) => w.(executor := e, executed := w.executed + [PlainExecuted(batch, txs)]))
  }

  // ----- the invariant

  /** The batch is active and open for submissions, or has been. */
  predicate HasOpened(w: World, batch: uint64) {
    ActiveWindow(w.config.configs, batch).Returned? && ActiveWindow(w.config.configs, batch).value.start <= w.block
  }

  /** The batch is active and its submission period is over. */
  predicate HasClosed(w: World, batch: uint64) {
    ActiveWindow(w.config.configs, batch).Returned? && ActiveWindow(w.config.configs, batch).value.end <= w.block
  }

  /** Half steps are numbered: cipher then plain of batch 0, of batch 1, and so on. */
  predicate InTurn(i: nat, h: HalfStep) {
    && h.batch == i / 2
    && (if i % 2 == 0 then h.CipherExecuted? || h.CipherSkipped? else h.PlainExecuted?)
  }

  function TotalSize(txs: seq<Bytes>): nat {
    if txs == [] then 0 else TotalSize(txs[..|txs| - 1]) + |txs[|txs| - 1]|
  }

  /** The batcher's hashes and size of a batch are those of the submitted
      transactions; there are some only if the batch has opened, and they are
      within the size limit. */
  ghost predicate BatchOk(k: Keccak, w: World, batch: uint64) {
    var size := BatchSize(w.batcher, batch);
    && BatchHash(w.batcher, batch, Cipher) == Chain(k, Submitted(w, batch, Cipher))
    && BatchHash(w.batcher, batch, Plain) == Chain(k, Submitted(w, batch, Plain))
    && size == TotalSize(Submitted(w, batch, Cipher)) + TotalSize(Submitted(w, batch, Plain))
    && (size > 0 ==>
          HasOpened(w, batch) && size <= ActiveWindow(w.config.configs, batch).value.config.batchSizeLimit)
  }

  /** What was executed in half step i, against what was submitted. */
  ghost predicate Executed(k: Keccak, w: World, i: nat)
    requires i < |w.executed|
  {
    match w.executed[i]
    case PlainExecuted(batch, txs) => Chain(k, txs) == Chain(k, Submitted(w, batch, Plain)) && i !in w.executor.receipts
    case CipherSkipped(batch) => i !in w.executor.receipts
    case CipherExecuted(batch, txs) =>
      && i in w.executor.receipts
      && w.executor.receipts[i].halfStep == i
      && w.executor.receipts[i].cipherBatchHash == Chain(k, Submitted(w, batch, Cipher))
      && w.executor.receipts[i].batchHash == Chain(k, txs)
      && (Chain(k, Submitted(w, batch, Cipher)) == ZERO_HASH <==> txs == [])
  }

  /** Who may do it: a keyper of the batch's config executes, anyone skips after the
      timeout. */
  ghost predicate Allowed(w: World, i: nat)
    requires i < |w.executed| && HasClosed(w, w.executed[i].batch)
  {
    var win := ActiveWindow(w.config.configs, w.executed[i].batch).value;
    match w.executed[i]
    case CipherExecuted(_, _) => i in w.executor.receipts && w.executor.receipts[i].executor in win.config.keypers
    case CipherSkipped(_) => win.timeout <= w.block
    case PlainExecuted(_, _) => true
  }

  ghost predicate StepOk(k: Keccak, w: World, i: nat)
    requires i < |w.executed|
  {
    InTurn(i, w.executed[i]) && HasClosed(w, w.executed[i].batch) && Executed(k, w, i) && Allowed(w, i)
  }

  ghost predicate Inv(k: Keccak, w: World) {
    && Valid(w.config)
    && |w.executed| == w.executor.numExecutionHalfSteps
    && (forall batch: uint64 :: BatchOk(k, w, batch))
    && (forall i :: 0 <= i < |w.executed| ==> StepOk(k, w, i))
    && (forall i :: i in w.executor.receipts ==> i < |w.executed|)
  }

  lemma GenesisInv(k: Keccak, headsUp: uint64, owner: Address, block: uint64)
    ensures Inv(k, Genesis(headsUp, owner, block))
  {
  }

  // ----- lookups of opened and closed batches do not change

  lemma WindowMeans(configs: seq<BatchConfig>, batch: uint64)
    ensures ActiveWindow(configs, batch).Returned? ==>
      var r, w := ConfigIndex(configs, batch), ActiveWindow(configs, batch).value;
      && r.Returned? && w.config == configs[r.value] && w.config.Active()
      && w.start == OpeningBlock(w.config, batch) && w.end == ClosingBlock(w.config, batch)
      && w.start < w.end && w.timeout >= w.end
  {
    var r := ConfigIndex(configs, batch);
    if ActiveWindow(configs, batch).Returned? {
      BoundariesMean(configs[r.value], batch);
    }
  }

  lemma WindowFrozen(w: World, op: Op, batch: uint64)
    requires Valid(w.config) && HasOpened(w, batch)
    ensures ActiveWindow(After(w.config, w.block, op).configs, batch) == ActiveWindow(w.config.configs, batch)
  {
    WindowMeans(w.config.configs, batch);
    StepFreezes(w.config, w.block, op, batch);
  }

  lemma ClosedHasOpened(w: World, batch: uint64)
    ensures HasClosed(w, batch) ==> HasOpened(w, batch)
  {
    WindowMeans(w.config.configs, batch);
  }

  // ----- every call keeps the invariant

  /** Nothing is lost while hashes, submissions and half steps stay and the windows
      of opened batches do not change. */
  lemma FrameKeepsInv(k: Keccak, w: World, w': World)
    requires Inv(k, w) && Valid(w'.config) && w'.block >= w.block
    requires w'.submitted == w.submitted && w'.executed == w.executed && w'.executor == w.executor
    requires w'.batcher.batchHashes == w.batcher.batchHashes && w'.batcher.batchSizes == w.batcher.batchSizes
    requires forall batch: uint64 :: HasOpened(w, batch) ==>
      ActiveWindow(w'.config.configs, batch) == ActiveWindow(w.config.configs, batch)
    ensures Inv(k, w')
  {
    forall batch: uint64
      ensures BatchOk(k, w', batch)
    {
      assert BatchOk(k, w, batch);
    }
    forall i | 0 <= i < |w'.executed|
      ensures StepOk(k, w', i)
    {
      assert StepOk(k, w, i);
      ClosedHasOpened(w, w.executed[i].batch);
    }
  }

  lemma OwnerKeepsInv(k: Keccak, w: World, op: Op)
    requires Inv(k, w)
    ensures Inv(k, w.(config := After(w.config, w.block, op)))
  {
    var w' := w.(config := After(w.config, w.block, op));
    StepFreezes(w.config, w.block, op, 0);
    forall batch: uint64 | HasOpened(w, batch)
      ensures ActiveWindow(w'.config.configs, batch) == ActiveWindow(w.config.configs, batch)
    {
      WindowFrozen(w, op, batch);
    }
    FrameKeepsInv(k, w, w');
  }

  lemma SubmittedAfter(w: World, w': World, batch: uint64, t: TransactionType, tx: Bytes, b: uint64, s: TransactionType)
    requires w'.submitted == w.submitted[(batch, t) := Submitted(w, batch, t) + [tx]]
    ensures Submitted(w', b, s) == if b == batch && s == t then Submitted(w, b, s) + [tx] else Submitted(w, b, s)
  {
  }

  lemma ChainAppend(k: Keccak, txs: seq<Bytes>, tx: Bytes)
    ensures Chain(k, txs + [tx]) == k(tx + Chain(k, txs))
    ensures TotalSize(txs + [tx]) == TotalSize(txs) + |tx|
  {
    assert (txs + [tx])[..|txs|] == txs;
  }

  lemma AddTxKeepsBatch(k: Keccak, w: World, w': World, batch: uint64, t: TransactionType, tx: Bytes, b: uint64)
    requires BatchOk(k, w, b) && BatchOk(k, w, batch) && tx != []
    requires HasOpened(w, batch)
    requires BatchSize(w.batcher, batch) + |tx| <= ActiveWindow(w.config.configs, batch).value.config.batchSizeLimit
    requires w' == w.(batcher := WithTransaction(k, w.batcher, batch, t, tx),
                      submitted := w.submitted[(batch, t) := Submitted(w, batch, t) + [tx]])
    ensures BatchOk(k, w', b)
  {
    SubmittedAfter(w, w', batch, t, tx, b, Cipher);
    SubmittedAfter(w, w', batch, t, tx, b, Plain);
    if b == batch {
      ChainAppend(k, Submitted(w, batch, t), tx);
    }
  }

  lemma AddTxKeepsInv(k: Keccak, w: World, batch: uint64, t: TransactionType, tx: Bytes, value: nat)
    requires Inv(k, w) && Step(k, w, AddTx(batch, t, tx, value)).Returned?
    ensures Inv(k, Step(k, w, AddTx(batch, t, tx, value)).value)
  {
    var w' := Step(k, w, AddTx(batch, t, tx, value)).value;
    forall b: uint64
      ensures BatchOk(k, w', b)
    {
      assert BatchOk(k, w, b) && BatchOk(k, w, batch);
      AddTxKeepsBatch(k, w, w', batch, t, tx, b);
    }
    forall i | 0 <= i < |w'.executed|
      ensures StepOk(k, w', i)
    {
      AddTxKeepsStep(k, w, w', batch, t, tx, i);
    }
  }

  lemma AddTxKeepsStep(k: Keccak, w: World, w': World, batch: uint64, t: TransactionType, tx: Bytes, i: nat)
    requires i < |w.executed| && StepOk(k, w, i)
    requires !HasClosed(w, batch)
    requires w' == w.(batcher := w'.batcher, submitted := w.submitted[(batch, t) := Submitted(w, batch, t) + [tx]])
    ensures StepOk(k, w', i)
    ensures w.executed[i].batch != batch
  {
  }

  lemma HalfStepKeepsInv(k: Keccak, w: World, w': World, h: HalfStep)
    requires Inv(k, w)
    requires w' == w.(executor := w'.executor, executed := w.executed + [h])
    requires w'.executor.numExecutionHalfSteps == w.executor.numExecutionHalfSteps + 1
    requires StepOk(k, w', |w.executed|)
    requires forall i :: i in w'.executor.receipts ==> i in w.executor.receipts || i == |w.executed|
    requires forall i :: i in w.executor.receipts ==>
      i in w'.executor.receipts && w'.executor.receipts[i] == w.executor.receipts[i]
    ensures Inv(k, w')
  {
    forall batch: uint64
      ensures BatchOk(k, w', batch)
    {
      assert BatchOk(k, w, batch);
    }
    forall i | 0 <= i < |w'.executed|
      ensures StepOk(k, w', i)
    {
      if i < |w.executed| {
        assert StepOk(k, w, i) && w'.executed[i] == w.executed[i];
      }
    }
  }

  lemma CipherKeepsInv(k: Keccak, w: World, call: Call)
    requires Inv(k, w) && call.ExecuteCipher? && Step(k, w, call).Returned?
    ensures Inv(k, Step(k, w, call).value)
  {
    var w' := Step(k, w, call).value;
    CipherFrame(k, w, call, w');
    CipherStepOk(k, w, call, w');
    HalfStepKeepsInv(k, w, w', w'.executed[|w.executed|]);
  }

  /** One half step is added, with a receipt of its own or none. */
  lemma CipherFrame(k: Keccak, w: World, call: Call, w': World)
    requires w.config.configs != [] && call.ExecuteCipher? && Step(k, w, call) == Returned(w')
    requires |w.executed| == w.executor.numExecutionHalfSteps
    requires forall i :: i in w.executor.receipts ==> i < |w.executed|
    ensures |w'.executed| == |w.executed| + 1
    ensures w' == w.(executor := w'.executor, executed := w.executed + [w'.executed[|w.executed|]])
    ensures w'.executor.numExecutionHalfSteps == w.executor.numExecutionHalfSteps + 1
    ensures forall i :: i in w'.executor.receipts ==> i in w.executor.receipts || i == |w.executed|
    ensures forall i :: i in w.executor.receipts ==>
      i in w'.executor.receipts && w'.executor.receipts[i] == w.executor.receipts[i]
  {
  }

  /** The half step is in turn, and its batch has closed. */
  lemma CipherInTurn(k: Keccak, w: World, call: Call, w': World)
    requires Inv(k, w) && call.ExecuteCipher? && Step(k, w, call) == Returned(w')
    ensures |w'.executed| == |w.executed| + 1 && w'.executed[..|w.executed|] == w.executed
    ensures InTurn(|w.executed|, w'.executed[|w.executed|]) && HasClosed(w', call.batch)
    ensures w'.executed[|w.executed|].batch == call.batch
  {
    WindowMeans(w.config.configs, call.batch);
  }

  /** The receipt is as it should be. */
  lemma CipherReceived(k: Keccak, w: World, call: Call, w': World)
    requires Inv(k, w) && call.ExecuteCipher? && Step(k, w, call) == Returned(w')
    ensures |w'.executed| == |w.executed| + 1 && Executed(k, w', |w.executed|)
  {
    assert |w.executed| !in w.executor.receipts;
    assert BatchOk(k, w, call.batch);
  }

  lemma CipherStepOk(k: Keccak, w: World, call: Call, w': World)
    requires Inv(k, w) && call.ExecuteCipher? && Step(k, w, call) == Returned(w')
    ensures |w'.executed| == |w.executed| + 1 && w'.executed[..|w.executed|] == w.executed
    ensures StepOk(k, w', |w.executed|)
  {
    CipherInTurn(k, w, call, w');
    CipherReceived(k, w, call, w');
    CipherAllowed(k, w, call, w');
  }

  lemma CipherAllowed(k: Keccak, w: World, call: Call, w': World)
    requires Inv(k, w) && call.ExecuteCipher? && Step(k, w, call) == Returned(w')
    ensures |w'.executed| == |w.executed| + 1 && HasClosed(w', w'.executed[|w.executed|].batch) && Allowed(w', |w.executed|)
  {
    CipherInTurn(k, w, call, w');
    assert |w.executed| !in w.executor.receipts;
  }

  lemma SkipKeepsInv(k: Keccak, w: World, batch: uint64)
    requires Inv(k, w) && Step(k, w, SkipCipher(batch)).Returned?
    ensures Inv(k, Step(k, w, SkipCipher(batch)).value)
  {
    WindowMeans(w.config.configs, batch);
    assert |w.executed| !in w.executor.receipts;
    HalfStepKeepsInv(k, w, Step(k, w, SkipCipher(batch)).value, CipherSkipped(batch));
  }

  lemma PlainKeepsInv(k: Keccak, w: World, batch: uint64, txs: seq<Bytes>)
    requires Inv(k, w) && Step(k, w, ExecutePlain(batch, txs)).Returned?
    ensures Inv(k, Step(k, w, ExecutePlain(batch, txs)).value)
  {
    var w' := Step(k, w, ExecutePlain(batch, txs)).value;
    WindowMeans(w.config.configs, batch);
    assert BatchOk(k, w, batch);
    assert Submitted(w', batch, Plain) == Submitted(w, batch, Plain);
    HalfStepKeepsInv(k, w, w', PlainExecuted(batch, txs));
  }

  lemma StepKeepsInv(k: Keccak, w: World, call: Call)
    requires Inv(k, w)
    ensures Step(k, w, call).Returned? ==> Inv(k, Step(k, w, call).value)
  {
    var r := Step(k, w, call);
    if r.Returned? {
      match call
      case Mine(blocks) => FrameKeepsInv(k, w, r.value);
      case Owner(op) => OwnerKeepsInv(k, w, op);
      case SetMinFee(fee) => FrameKeepsInv(k, w, r.value);
      case AddTx(batch, t, tx, value) => AddTxKeepsInv(k, w, batch, t, tx, value);
      case ExecuteCipher(_, _, _, _, _) => CipherKeepsInv(k, w, call);
      case SkipCipher(batch) => SkipKeepsInv(k, w, batch);
      case ExecutePlain(batch, txs) => PlainKeepsInv(k, w, batch, txs);
    }
  }

  // ----- the asserts never fail

  /** In a reachable world no call runs into a failing assert: not the ones in the
      boundary query, not the one that ends the config search, and not those in the
      plain half step, which rely on the config not having changed since the cipher
      half step. */
  lemma AssertsNeverFail(k: Keccak, w: World, call: Call)
    requires Inv(k, w)
    ensures Step(k, w, call) != AssertFailed
  {
    match call
    case Mine(_) =>
    case Owner(_) =>
    case SetMinFee(_) =>
    case AddTx(batch, t, tx, value) => AddNeverAsserts(k, w, batch, t, tx, value);
    case ExecuteCipher(sender, batch, hash, txs, keyper) => CipherNeverAsserts(k, w, sender, batch, hash, txs, keyper);
    case SkipCipher(batch) => SkipNeverAsserts(w, batch);
    case ExecutePlain(batch, txs) => PlainNeverAsserts(k, w, batch, txs);
  }

  lemma AddNeverAsserts(k: Keccak, w: World, batch: uint64, t: TransactionType, tx: Bytes, value: nat)
    requires Valid(w.config)
    ensures AddTransaction(k, w.batcher, w.config, w.block, batch, t, tx, value) != AssertFailed
  {
    WindowNeverAsserts(w, batch);
  }

  lemma CipherNeverAsserts(k: Keccak, w: World, sender: Address, batch: uint64, hash: Word, txs: seq<Bytes>, keyper: uint64)
    requires Valid(w.config)
    ensures ExecuteCipherBatch(k, w.executor, w.config, w.batcher, w.block, sender, batch, hash, txs, keyper) != AssertFailed
  {
    WindowNeverAsserts(w, batch);
  }

  lemma SkipNeverAsserts(w: World, batch: uint64)
    requires Valid(w.config)
    ensures SkipCipherExecution(w.executor, w.config, w.block, batch) != AssertFailed
  {
    WindowNeverAsserts(w, batch);
  }

  lemma PlainNeverAsserts(k: Keccak, w: World, batch: uint64, txs: seq<Bytes>)
    requires Inv(k, w)
    ensures ExecutePlainBatch(k, w.executor, w.config, w.batcher, w.block, batch, txs) != AssertFailed
  {
    WindowNeverAsserts(w, batch);
    WindowMeans(w.config.configs, batch);
    var h := w.executor.numExecutionHalfSteps;
    if h / 2 == batch && h % 2 == 1 {
      assert StepOk(k, w, h - 1);
      StepShowsClosed(k, w, h - 1, batch);
    }
  }

  /** A half step shows that its batch has closed. */
  lemma StepShowsClosed(k: Keccak, w: World, i: nat, batch: uint64)
    requires i < |w.executed| && StepOk(k, w, i) && i / 2 == batch
    ensures HasClosed(w, batch)
  {
  }

  lemma WindowNeverAsserts(w: World, batch: uint64)
    requires Valid(w.config)
    ensures ConfigIndex(w.config.configs, batch).Returned? && ActiveWindow(w.config.configs, batch) != AssertFailed
  {
    ConfigIndexFound(w.config, batch);
    var c := w.config.configs[ConfigIndex(w.config.configs, batch).value];
    if c.Active() {
      BoundariesMean(c, batch);
    }
  }

  // ----- whole runs

  /** The world after a sequence of calls; failing calls change nothing. */
  function Run(k: Keccak, w: World, calls: seq<Call>): World
    requires w.config.configs != []
    decreases calls
  {
    if calls == [] then w
    else
      var r := Step(k, w, calls[0]);
      Run(k, if r.Returned? then r.value else w, calls[1..])
  }

  lemma {:induction false} RunKeepsInv(k: Keccak, w: World, calls: seq<Call>)
    requires Inv(k, w)
    ensures Inv(k, Run(k, w, calls))
    decreases calls
  {
    if calls != [] {
      StepKeepsInv(k, w, calls[0]);
      var r := Step(k, w, calls[0]);
      RunKeepsInv(k, if r.Returned? then r.value else w, calls[1..]);
    }
  }

  lemma StepsInTurn(k: Keccak, w: World)
    requires Inv(k, w)
    ensures |w.executed| == w.executor.numExecutionHalfSteps
    ensures forall i :: 0 <= i < |w.executed| ==> InTurn(i, w.executed[i]) && HasClosed(w, w.executed[i].batch)
  {
    forall i | 0 <= i < |w.executed|
      ensures InTurn(i, w.executed[i]) && HasClosed(w, w.executed[i].batch)
    {
      assert StepOk(k, w, i);
    }
  }

  /** Executor safety over all interleavings: from deployment on, whatever calls
      anyone makes in whatever order, no further call can fail an assert; and the
      half steps carried out so far are cipher and plain half step of every batch
      once each, in order, each after its batch closed. */
  lemma ExecutorSafety(k: Keccak, headsUp: uint64, owner: Address, block: uint64, calls: seq<Call>, call: Call)
    ensures var w := Run(k, Genesis(headsUp, owner, block), calls);
      && Valid(w.config)
      && Step(k, w, call) != AssertFailed
      && |w.executed| == w.executor.numExecutionHalfSteps
      && (forall i :: 0 <= i < |w.executed| ==> InTurn(i, w.executed[i]) && HasClosed(w, w.executed[i].batch))
  {
    var w0 := Genesis(headsUp, owner, block);
    GenesisInv(k, headsUp, owner, block);
    RunKeepsInv(k, w0, calls);
    AssertsNeverFail(k, Run(k, w0, calls), call);
    StepsInTurn(k, Run(k, w0, calls));
  }

  /** Only a keyper of the batch's config can execute its cipher half step, and only between
      the batch's closing and its timeout; the receipt names the keyper that did. */
  lemma OnlyKeypersExecute(k: Keccak, w: World, call: Call, w': World)
    requires Inv(k, w) && call.ExecuteCipher? && Step(k, w, call) == Returned(w')
    ensures ActiveWindow(w.config.configs, call.batch).Returned?
    ensures var win, n := ActiveWindow(w.config.configs, call.batch).value, |w.executed|;
      if w.block >= win.timeout then w'.executed == w.executed + [CipherSkipped(call.batch)]
      else
        && win.end <= w.block && call.sender in win.config.keypers
        && w'.executed == w.executed + [CipherExecuted(call.batch, call.txs)]
        && n in w'.executor.receipts && w'.executor.receipts[n].executor == call.sender
  {
    assert |w.executed| !in w.executor.receipts;
  }

  /** Nobody can skip a cipher half step before its timeout. */
  lemma NoEarlySkip(k: Keccak, w: World, batch: uint64, w': World)
    requires Inv(k, w) && Step(k, w, SkipCipher(batch)) == Returned(w')
    ensures ActiveWindow(w.config.configs, batch).Returned?
    ensures ActiveWindow(w.config.configs, batch).value.timeout <= w.block
  {
  }

  /** Over all interleavings from deployment: whoever the receipt of an executed cipher half
      step names is a keyper of the batch's config, and what was skipped had timed out. */
  lemma AllByKeypers(k: Keccak, headsUp: uint64, owner: Address, block: uint64, calls: seq<Call>, i: nat)
    requires i < |Run(k, Genesis(headsUp, owner, block), calls).executed|
    ensures var w := Run(k, Genesis(headsUp, owner, block), calls);
      HasClosed(w, w.executed[i].batch) && Allowed(w, i)
  {
    var w0 := Genesis(headsUp, owner, block);
    GenesisInv(k, headsUp, owner, block);
    RunKeepsInv(k, w0, calls);
    assert StepOk(k, Run(k, w0, calls), i);
  }

  /** The batch takes the transaction: it is open, the transaction is neither empty nor too
      large, what has been submitted leaves room for it, and the fee is paid. */
  ghost predicate Takes(w: World, batch: uint64, tx: Bytes, value: nat) {
    && ActiveWindow(w.config.configs, batch).Returned?
    && var win := ActiveWindow(w.config.configs, batch).value;
       && win.start <= w.block < win.end
       && 0 < |tx| <= win.config.transactionSizeLimit
       && TotalSize(Submitted(w, batch, Cipher)) + TotalSize(Submitted(w, batch, Plain)) + |tx| <= win.config.batchSizeLimit
       && value >= w.batcher.minFee
  }

  /** A transaction is accepted exactly if the batch takes it, and then it is the last one
      of its kind submitted to the batch, and nothing else has changed. */
  lemma SubmittedExactly(k: Keccak, w: World, batch: uint64, t: TransactionType, tx: Bytes, value: nat)
    requires Inv(k, w)
    ensures var r := Step(k, w, AddTx(batch, t, tx, value));
      && (r.Returned? <==> Takes(w, batch, tx, value))
      && (r.Returned? ==>
            && Submitted(r.value, batch, t) == Submitted(w, batch, t) + [tx]
            && r.value.config == w.config && r.value.executor == w.executor && r.value.executed == w.executed
            && forall b: uint64, s: TransactionType :: (b, s) != (batch, t) ==> Submitted(r.value, b, s) == Submitted(w, b, s))
  {
    assert BatchOk(k, w, batch);
  }

  /** The next half step is of this batch and kind, and the counter can count it. */
  predicate NextIs(w: World, batch: uint64, t: TransactionType) {
    w.executor.numExecutionHalfSteps == 2 * batch + (if t.Cipher? then 0 else 1) && w.executor.numExecutionHalfSteps + 1 < TWO_64
  }

  /** What is asked of a call that carries out a half step, in terms of what was submitted. */
  ghost predicate CallDue(k: Keccak, w: World, call: Call)
    requires call.ExecuteCipher? || call.SkipCipher? || call.ExecutePlain?
  {
    match call
    case ExecuteCipher(sender, batch, hash, txs, keyperIndex) =>
      && NextIs(w, batch, Cipher) && HasClosed(w, batch)
      && var win := ActiveWindow(w.config.configs, batch).value;
         || win.timeout <= w.block
         || (keyperIndex < |win.config.keypers| && win.config.keypers[keyperIndex] == sender
             && hash == Chain(k, Submitted(w, batch, Cipher)) && (hash == ZERO_HASH <==> txs == []))
    case SkipCipher(batch) =>
      NextIs(w, batch, Cipher) && HasClosed(w, batch) && ActiveWindow(w.config.configs, batch).value.timeout <= w.block
    case ExecutePlain(batch, txs) => NextIs(w, batch, Plain) && Chain(k, txs) == Chain(k, Submitted(w, batch, Plain))
  }

  /** A half step is carried out exactly if it is due. In particular execution never gets
      stuck: from the timeout on everybody can end the cipher half step, and at any time after
      it everybody can execute the plain one with what was submitted. */
  lemma ExecutedExactly(k: Keccak, w: World, call: Call)
    requires Inv(k, w) && (call.ExecuteCipher? || call.SkipCipher? || call.ExecutePlain?)
    ensures Step(k, w, call).Returned? <==> CallDue(k, w, call)
  {
    match call
    case ExecuteCipher(_, _, _, _, _) => CipherExactly(k, w, call);
    case SkipCipher(batch) => WindowMeans(w.config.configs, batch);
    case ExecutePlain(batch, txs) => PlainExactly(k, w, batch, txs);
  }

  lemma CipherExactly(k: Keccak, w: World, call: Call)
    requires Inv(k, w) && call.ExecuteCipher?
    ensures Step(k, w, call).Returned? <==> CallDue(k, w, call)
  {
    assert BatchOk(k, w, call.batch);
    WindowMeans(w.config.configs, call.batch);
  }

  lemma PlainExactly(k: Keccak, w: World, batch: uint64, txs: seq<Bytes>)
    requires Inv(k, w)
    ensures Step(k, w, ExecutePlain(batch, txs)).Returned? <==> CallDue(k, w, ExecutePlain(batch, txs))
  {
    WindowMeans(w.config.configs, batch);
    assert BatchOk(k, w, batch);
    if NextIs(w, batch, Plain) {
      var h := w.executor.numExecutionHalfSteps;
      assert StepOk(k, w, h - 1);
      StepShowsClosed(k, w, h - 1, batch);
    }
  }

  /** No transaction enters a batch after its cipher half step, by any later calls. */
  lemma {:induction false} NoLateTransactions(k: Keccak, w: World, calls: seq<Call>, i: nat, t: TransactionType)
    requires Inv(k, w) && i < |w.executed|
    ensures var w' := Run(k, w, calls);
      i < |w'.executed| && w'.executed[i] == w.executed[i]
      && Submitted(w', w.executed[i].batch, t) == Submitted(w, w.executed[i].batch, t)
    decreases calls
  {
    if calls != [] {
      StepKeepsInv(k, w, calls[0]);
      ClosedBatchStays(k, w, calls[0], i, t);
      var r := Step(k, w, calls[0]);
      NoLateTransactions(k, if r.Returned? then r.value else w, calls[1..], i, t);
    }
  }

  lemma ClosedBatchStays(k: Keccak, w: World, call: Call, i: nat, t: TransactionType)
    requires Inv(k, w) && i < |w.executed|
    ensures var r := Step(k, w, call);
      r.Returned? ==>
        && i < |r.value.executed| && r.value.executed[i] == w.executed[i]
        && Submitted(r.value, w.executed[i].batch, t) == Submitted(w, w.executed[i].batch, t)
  {
    assert StepOk(k, w, i);
  }

  /** The executed plain list is exactly the submitted list, in submission order,
      provided that hashing the two lists shows no collision. */
  lemma PlainListIsSubmittedList(k: Keccak, w: World, i: nat)
    requires Inv(k, w) && i < |w.executed| && w.executed[i].PlainExecuted?
    requires var txs, subs := w.executed[i].txs, Submitted(w, w.executed[i].batch, Plain);
      CollisionFree(k, Preimages(k, txs) + Preimages(k, subs))
    ensures w.executed[i].txs == Submitted(w, w.executed[i].batch, Plain)
  {
    assert StepOk(k, w, i);
    ChainInjective(k, w.executed[i].txs, Submitted(w, w.executed[i].batch, Plain));
  }

  /** A cipher half step was executed with transactions exactly if encrypted ones
      had been submitted, and its receipt carries the hash of the submitted list. */
  lemma CipherReceipt(k: Keccak, w: World, i: nat)
    requires Inv(k, w) && i < |w.executed| && w.executed[i].CipherExecuted?
    requires CollisionFree(k, Preimages(k, Submitted(w, w.executed[i].batch, Cipher)))
    ensures i in w.executor.receipts
    ensures w.executor.receipts[i].cipherBatchHash == Chain(k, Submitted(w, w.executed[i].batch, Cipher))
    ensures w.executed[i].txs == [] <==> Submitted(w, w.executed[i].batch, Cipher) == []
  {
    assert StepOk(k, w, i);
    LastPreimage(k, Submitted(w, w.executed[i].batch, Cipher));
  }
}
