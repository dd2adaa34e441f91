/** Hash chains of transactions, the batcher contract and the executor contract. */
module Batches {
  import opened Addresses
  import opened Widths
  import opened Configs

  type Bytes = seq<bv8>

  /** A 32 byte word. */
  type Word = b: Bytes | |b| == 32 witness seq(32, _ => 0)

  const ZERO_HASH: Word := [0, 0, 0, 0, 0, 0, 0, 0, 0, 0, 0, 0, 0, 0, 0, 0,
                          0, 0, 0, 0, 0, 0, 0, 0, 0, 0, 0, 0, 0, 0, 0, 0]

  type Keccak = Bytes -> Word

  datatype TransactionType = Cipher | Plain

  // ----- the hash chain

  /** The batch hash after adding the transactions in order. */
  function Chain(k: Keccak, txs: seq<Bytes>): Word {
    if txs == [] then ZERO_HASH
    else k(txs[|txs| - 1] + Chain(k, txs[..|txs| - 1]))
  }

  /** The byte strings hashed while building the chain. */
  ghost function Preimages(k: Keccak, txs: seq<Bytes>): set<Bytes> {
    if txs == [] then {}
    else Preimages(k, txs[..|txs| - 1]) + {txs[|txs| - 1] + Chain(k, txs[..|txs| - 1])}
  }

  /** Among the given inputs, the hash has no collisions and never yields zero. */
  ghost predicate CollisionFree(k: Keccak, inputs: set<Bytes>) {
    && (forall a, b :: a in inputs && b in inputs && k(a) == k(b) ==> a == b)
    && (forall a :: a in inputs ==> k(a) != ZERO_HASH)
  }

  lemma PackingInjective(a: Bytes, x: Word, b: Bytes, y: Word)
    requires a + x == b + y
    ensures a == b && x == y
  {
    assert |a| == |b|;
    assert (a + x)[..|a|] == a && (b + y)[..|b|] == b;
    assert (a + x)[|a|..] == x && (b + y)[|b|..] == y;
  }

  /** Lists with the same batch hash are the same list, unless hashing one of them
      exhibits a collision. */
  lemma {:induction false} ChainInjective(k: Keccak, xs: seq<Bytes>, ys: seq<Bytes>)
    requires CollisionFree(k, Preimages(k, xs) + Preimages(k, ys))
    requires Chain(k, xs) == Chain(k, ys)
    ensures xs == ys
  {
    LastPreimage(k, xs);
    LastPreimage(k, ys);
    if xs != [] && ys != [] {
      var xs', ys' := xs[..|xs| - 1], ys[..|ys| - 1];
      PackingInjective(xs[|xs| - 1], Chain(k, xs'), ys[|ys| - 1], Chain(k, ys'));
      ChainInjective(k, xs', ys');
      assert xs == xs' + [xs[|xs| - 1]] && ys == ys' + [ys[|ys| - 1]];
    }
  }

  lemma LastPreimage(k: Keccak, txs: seq<Bytes>)
    ensures txs != [] ==>
      var a := txs[|txs| - 1] + Chain(k, txs[..|txs| - 1]);
      a in Preimages(k, txs) && Chain(k, txs) == k(a)
  {
  }

  // ----- looking up a batch

  datatype Window = Window(config: BatchConfig, start: uint64, end: uint64, timeout: uint64)

  /** The config and the boundary blocks of a batch, which must be active. */
  function ActiveWindow(configs: seq<BatchConfig>, batchIndex: uint64): CallResult<Window> {
    var index := ConfigIndex(configs, batchIndex);
    if !index.Returned? then AssertFailed
    else if !configs[index.value].Active() then Reverted("config is inactive")
    else
      match BatchBoundaryBlocks(configs[index.value], batchIndex)
      case Returned(b) => Returned(Window(configs[index.value], b.0, b.1, b.2))
      case Reverted(reason) => Reverted(reason)
      case AssertFailed => AssertFailed
  }

  /** The lookup made by the batcher and by the cipher half step. */
  method LookUp(configContract: ConfigContract, batchIndex: uint64) returns (r: CallResult<Window>)
    ensures r == ActiveWindow(configContract.configs, batchIndex)
  {
    var index := configContract.ConfigIndexForBatchIndex(batchIndex);
    if !index.Returned? {
      return AssertFailed;
    }
    var config := configContract.configs[index.value];
    if !config.Active() {
      return Reverted("config is inactive");
    }
    match BatchBoundaryBlocks(config, batchIndex)
    case Returned(b) => return Returned(Window(config, b.0, b.1, b.2));
    case Reverted(reason) => return Reverted(reason);
    case AssertFailed => return AssertFailed;
  }

  // ----- the batcher

  datatype BatcherState = BatcherState(
    batchSizes: map<uint64, uint64>,
    batchHashes: map<(uint64, TransactionType), Word>,
    minFee: uint64)

  const EMPTY_BATCHER := BatcherState(map[], map[], 0)

  /** Solidity mappings read as zero where nothing was written. */
  function BatchSize(b: BatcherState, batchIndex: uint64): uint64 {
    if batchIndex in b.batchSizes then b.batchSizes[batchIndex] else 0
  }

  function BatchHash(b: BatcherState, batchIndex: uint64, t: TransactionType): Word {
    if (batchIndex, t) in b.batchHashes then b.batchHashes[(batchIndex, t)] else ZERO_HASH
  }

  function WithTransaction(k: Keccak, b: BatcherState, batchIndex: uint64, t: TransactionType, transaction: Bytes)
    : BatcherState
    requires BatchSize(b, batchIndex) + |transaction| < TWO_64
  {
    BatcherState(b.batchSizes[batchIndex := BatchSize(b, batchIndex) + |transaction|],
                 b.batchHashes[(batchIndex, t) := k(transaction + BatchHash(b, batchIndex, t))],
                 b.minFee)
  }

  function AddTransaction(k: Keccak, b: BatcherState, c: Configs.State, block: uint64,
                          batchIndex: uint64, t: TransactionType, transaction: Bytes, value: nat)
    : CallResult<BatcherState>
  {
    match ActiveWindow(c.configs, batchIndex)
    case AssertFailed => AssertFailed
    case Reverted(reason) => Reverted(reason)
    case Returned(w) =>
      if block < w.start then Reverted("batch not open yet")
      else if block >= w.end then Reverted("batch already closed")
      else if |transaction| == 0 then Reverted("transaction is empty")
      else if |transaction| > w.config.transactionSizeLimit then Reverted("transaction too big")
      else if BatchSize(b, batchIndex) + |transaction| > w.config.batchSizeLimit then Reverted("batch already full")
      else if value < b.minFee then Reverted("fee too small")
      else Returned(WithTransaction(k, b, batchIndex, t, transaction))
  }

  // ----- the executor

  datatype Receipt = Receipt(executor: Address, halfStep: uint64, cipherBatchHash: Word, batchHash: Word)

  datatype ExecutorState = ExecutorState(numExecutionHalfSteps: uint64, receipts: map<uint64, Receipt>)

  const EMPTY_EXECUTOR := ExecutorState(0, map[])

  function NextHalfStep(e: ExecutorState): CallResult<ExecutorState> {
    if e.numExecutionHalfSteps + 1 >= TWO_64 then Reverted("overflow")
    else Returned(ExecutorState(e.numExecutionHalfSteps + 1, e.receipts))
  }

  /** The cipher half step of an active batch, given the batch's window and the
      hash of its cipher transactions. */
  function CipherInWindow(k: Keccak, e: ExecutorState, expectedHash: Word, block: uint64, w: Window,
                          sender: Address, cipherBatchHash: Word, transactions: seq<Bytes>, keyperIndex: uint64)
    : CallResult<ExecutorState>
  {
    if block >= w.timeout then NextHalfStep(e)
    else if block < w.end then Reverted("batch is not closed yet")
    else if keyperIndex >= |w.config.keypers| then Reverted("keyper index out of bounds")
    else if sender != w.config.keypers[keyperIndex] then Reverted("sender is not specified keyper")
    else if cipherBatchHash != expectedHash then Reverted("incorrect cipher batch hash")
    else if (cipherBatchHash == ZERO_HASH) != (|transactions| == 0)
    then Reverted("cipherBatchHash should be zero iff transactions is empty")
    else if e.numExecutionHalfSteps + 1 >= TWO_64 then Reverted("overflow")
    else Returned(ExecutorState(e.numExecutionHalfSteps + 1,
           e.receipts[e.numExecutionHalfSteps :=
             Receipt(sender, e.numExecutionHalfSteps, cipherBatchHash, Chain(k, transactions))]))
  }

  /** Executing the cipher half step, or skipping it if its timeout has passed. */
  function ExecuteCipherBatch(k: Keccak, e: ExecutorState, c: Configs.State, b: BatcherState, block: uint64,
                              sender: Address, batchIndex: uint64, cipherBatchHash: Word,
                              transactions: seq<Bytes>, keyperIndex: uint64)
    : CallResult<ExecutorState>
  {
    if e.numExecutionHalfSteps / 2 != batchIndex then Reverted("unexpected batch index")
    else if e.numExecutionHalfSteps % 2 != 0 then Reverted("unexpected half step")
    else
      match ActiveWindow(c.configs, batchIndex)
      case AssertFailed => AssertFailed
      case Reverted(reason) => Reverted(reason)
      case Returned(w) =>
        CipherInWindow(k, e, BatchHash(b, batchIndex, Cipher), block, w, sender, cipherBatchHash, transactions, keyperIndex)
  }

  function SkipCipherExecution(e: ExecutorState, c: Configs.State, block: uint64, batchIndex: uint64)
    : CallResult<ExecutorState>
  {
    if e.numExecutionHalfSteps / 2 != batchIndex then Reverted("unexpected batch index")
    else if e.numExecutionHalfSteps % 2 != 0 then Reverted("unexpected half step")
    else
      match ActiveWindow(c.configs, batchIndex)
      case AssertFailed => AssertFailed
      case Reverted(reason) => Reverted(reason)
      case Returned(w) =>
        if block < w.timeout then Reverted("execution timeout not reached yet") else NextHalfStep(e)
  }

  /** Executing the plain half step; the source asserts here that the batch's
      config is active and the batch is over. */
  function ExecutePlainBatch(k: Keccak, e: ExecutorState, c: Configs.State, b: BatcherState, block: uint64,
                             batchIndex: uint64, transactions: seq<Bytes>)
    : CallResult<ExecutorState>
  {
    if e.numExecutionHalfSteps / 2 != batchIndex then Reverted("unexpected batch index")
    else if e.numExecutionHalfSteps % 2 != 1 then Reverted("unexpected half step")
    else
      var index := ConfigIndex(c.configs, batchIndex);
      if !index.Returned? then AssertFailed
      else
        var config := c.configs[index.value];
        if !config.Active() then AssertFailed
        else
          var bounds := BatchBoundaryBlocks(config, batchIndex);
          if bounds.AssertFailed? then AssertFailed
          else if bounds.Reverted? then Reverted(bounds.reason)
          else if !(block >= bounds.value.1) then AssertFailed
          else if Chain(k, transactions) != BatchHash(b, batchIndex, Plain) then Reverted("batch hash does not match")
          else NextHalfStep(e)
  }

  // ----- the contracts

  class BatcherContract {
    const keccak: Keccak
    const configContract: ConfigContract
    var batchSizes: map<uint64, uint64>
    var batchHashes: map<(uint64, TransactionType), Word>
    var minFee: uint64

    ghost function View(): BatcherState
      reads this
    {
      BatcherState(batchSizes, batchHashes, minFee)
    }

    constructor (keccak: Keccak, configContract: ConfigContract)
      ensures this.keccak == keccak && this.configContract == configContract && View() == EMPTY_BATCHER
    {
      this.keccak := keccak;
      this.configContract := configContract;
      batchSizes := map[];
      batchHashes := map[];
      minFee := 0;
    }

    method AddTx(block: uint64, batchIndex: uint64, t: TransactionType, transaction: Bytes, value: nat)
        returns (r: CallResult<()>)
      modifies this
      ensures Effect(AddTransaction(keccak, old(View()), configContract.View(), block, batchIndex, t, transaction, value),
                     r, old(View()), View())
    {
      var window := LookUp(configContract, batchIndex);
      if window.AssertFailed? {
        return AssertFailed;
      }
      if window.Reverted? {
        return Reverted(window.reason);
      }
      var w := window.value;
      if block < w.start {
        return Reverted("batch not open yet");
      }
      if block >= w.end {
        return Reverted("batch already closed");
      }

      if |transaction| == 0 {
        return Reverted("transaction is empty");
      }
      if |transaction| > w.config.transactionSizeLimit {
        return Reverted("transaction too big");
      }
      var size := if batchIndex in batchSizes then batchSizes[batchIndex] else 0;
      if size + |transaction| > w.config.batchSizeLimit {
        return Reverted("batch already full");
      }

      if value < minFee {
        return Reverted("fee too small");
      }

      var hash := if (batchIndex, t) in batchHashes then batchHashes[(batchIndex, t)] else ZERO_HASH;
      batchHashes := batchHashes[(batchIndex, t) := keccak(transaction + hash)];
      batchSizes := batchSizes[batchIndex := size + |transaction|];
      return Returned(());
    }
  }

  class ExecutorContract {
    const keccak: Keccak
    const configContract: ConfigContract
    const batcherContract: BatcherContract
    var numExecutionHalfSteps: uint64
    var receipts: map<uint64, Receipt>

    ghost function View(): ExecutorState
      reads this
    {
      ExecutorState(numExecutionHalfSteps, receipts)
    }

    constructor (keccak: Keccak, configContract: ConfigContract, batcherContract: BatcherContract)
      ensures this.keccak == keccak && this.configContract == configContract
      ensures this.batcherContract == batcherContract && View() == EMPTY_EXECUTOR
    {
      this.keccak := keccak;
      this.configContract := configContract;
      this.batcherContract := batcherContract;
      numExecutionHalfSteps := 0;
      receipts := map[];
    }

    /** Calls the target with each transaction in turn (the calls do not change
        this contract) and folds the transactions into the batch hash. */
    method ExecuteTransactions(transactions: seq<Bytes>) returns (batchHash: Word)
      ensures batchHash == Chain(keccak, transactions)
    {
      batchHash := ZERO_HASH;
      for i := 0 to |transactions|
        invariant batchHash == Chain(keccak, transactions[..i])
      {
        assert transactions[..i + 1][..i] == transactions[..i];
        batchHash := keccak(transactions[i] + batchHash);
      }
      assert transactions[..|transactions|] == transactions;
    }

    method ExecuteCipher(block: uint64, sender: Address, batchIndex: uint64, cipherBatchHash: Word,
                         transactions: seq<Bytes>, keyperIndex: uint64)
        returns (r: CallResult<()>)
      modifies this
      ensures Effect(ExecuteCipherBatch(keccak, old(View()), configContract.View(), batcherContract.View(),
                                       block, sender, batchIndex, cipherBatchHash, transactions, keyperIndex),
                     r, old(View()), View())
    {
      if numExecutionHalfSteps / 2 != batchIndex {
        return Reverted("unexpected batch index");
      }
      if numExecutionHalfSteps % 2 != 0 {
        return Reverted("unexpected half step");
      }
      var window := LookUp(configContract, batchIndex);
      if window.AssertFailed? {
        return AssertFailed;
      }
      if window.Reverted? {
        return Reverted(window.reason);
      }
      var expectedHash := if (batchIndex, Cipher) in batcherContract.batchHashes
                          then batcherContract.batchHashes[(batchIndex, Cipher)] else ZERO_HASH;
      r := ExecuteInWindow(block, window.value, expectedHash, sender, cipherBatchHash, transactions, keyperIndex);
    }

    /** The part of the cipher half step that follows the lookups. */
    method ExecuteInWindow(block: uint64, w: Window, expectedHash: Word, sender: Address,
                           cipherBatchHash: Word, transactions: seq<Bytes>, keyperIndex: uint64)
        returns (r: CallResult<()>)
      modifies this
      ensures Effect(CipherInWindow(keccak, old(View()), expectedHash, block, w, sender, cipherBatchHash,
                                    transactions, keyperIndex),
                     r, old(View()), View())
    {
      if block >= w.timeout {
        if numExecutionHalfSteps + 1 >= TWO_64 {
          return Reverted("overflow");
        }
        numExecutionHalfSteps := numExecutionHalfSteps + 1;
        return Returned(());
      }
      if block < w.end {
        return Reverted("batch is not closed yet");
      }
      if keyperIndex >= |w.config.keypers| {
        return Reverted("keyper index out of bounds");
      }
      if sender != w.config.keypers[keyperIndex] {
        return Reverted("sender is not specified keyper");
      }
      if cipherBatchHash != expectedHash {
        return Reverted("incorrect cipher batch hash");
      }
      if !((cipherBatchHash == ZERO_HASH && |transactions| == 0)
           || (cipherBatchHash != ZERO_HASH && |transactions| > 0)) {
        return Reverted("cipherBatchHash should be zero iff transactions is empty");
      }
      var batchHash := ExecuteTransactions(transactions);
      if numExecutionHalfSteps + 1 >= TWO_64 {
        return Reverted("overflow");
      }
      receipts := receipts[numExecutionHalfSteps :=
                             Receipt(sender, numExecutionHalfSteps, cipherBatchHash, batchHash)];
      numExecutionHalfSteps := numExecutionHalfSteps + 1;
      return Returned(());
    }

    method SkipCipher(block: uint64, batchIndex: uint64) returns (r: CallResult<()>)
      modifies this
      ensures Effect(SkipCipherExecution(old(View()), configContract.View(), block, batchIndex),
                     r, old(View()), View())
    {
      if numExecutionHalfSteps / 2 != batchIndex {
        return Reverted("unexpected batch index");
      }
      if numExecutionHalfSteps % 2 != 0 {
        return Reverted("unexpected half step");
      }
      var window := LookUp(configContract, batchIndex);
      if window.AssertFailed? {
        return AssertFailed;
      }
      if window.Reverted? {
        return Reverted(window.reason);
      }
      var w := window.value;
      if block < w.timeout {
        return Reverted("execution timeout not reached yet");
      }
      if numExecutionHalfSteps + 1 >= TWO_64 {
        return Reverted("overflow");
      }
      numExecutionHalfSteps := numExecutionHalfSteps + 1;
      return Returned(());
    }

    method ExecutePlain(block: uint64, batchIndex: uint64, transactions: seq<Bytes>) returns (r: CallResult<()>)
      modifies this
      ensures Effect(ExecutePlainBatch(keccak, old(View()), configContract.View(), batcherContract.View(),
                                      block, batchIndex, transactions),
                     r, old(View()), View())
    {
      if numExecutionHalfSteps / 2 != batchIndex {
        return Reverted("unexpected batch index");
      }
      if numExecutionHalfSteps % 2 != 1 {
        return Reverted("unexpected half step");
      }
      var index := configContract.ConfigIndexForBatchIndex(batchIndex);
      if !index.Returned? {
        return AssertFailed;
      }
      var config := configContract.configs[index.value];
      if !config.Active() {
        return AssertFailed;
      }
      var bounds := BatchBoundaryBlocks(config, batchIndex);
      if bounds.AssertFailed? {
        return AssertFailed;
      }
      if bounds.Reverted? {
        return Reverted(bounds.reason);
      }
      if !(block >= bounds.value.1) {
        return AssertFailed;
      }
      var batchHash := ExecuteTransactions(transactions);
      var expected := if (batchIndex, Plain) in batcherContract.batchHashes
                      then batcherContract.batchHashes[(batchIndex, Plain)] else ZERO_HASH;
      if batchHash != expected {
        return Reverted("batch hash does not match");
      }
      if numExecutionHalfSteps + 1 >= TWO_64 {
        return Reverted("overflow");
      }
      numExecutionHalfSteps := numExecutionHalfSteps + 1;
      return Returned(());
    }
  }
}
