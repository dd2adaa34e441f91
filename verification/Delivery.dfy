/** What becomes of the transactions a keyper decides on: which of them the executor
    contract accepts, if the keyper has observed the contract's current state. */
module Delivery {
  import opened Outcome
  import opened Addresses
  import opened Widths
  import opened Configs
  import opened Batches
  import opened MainChain
  import opened Execution

  /** The decrypted transactions of a batch, as the keyper has them. */
  type Decryption = uint64 -> seq<Bytes>

  function KeyperIndex(c: BatchConfig, self: Address): (i: uint64)
    ensures self in c.keypers && |c.keypers| <= TWO_64 ==> i < |c.keypers| && c.keypers[i] == self
  {
    var index := FindAddressIndex(c.keypers, self);
    if index.Some? && index.value < TWO_64 then index.value else 0
  }

  /** The config of a batch. */
  function ConfigOf(w: World, batchIndex: uint64): BatchConfig {
    var index := ConfigIndex(w.config.configs, batchIndex);
    if index.Returned? then w.config.configs[index.value] else ZERO_CONFIG
  }

  /** The call that an action makes, with the hash and the lists the keyper has observed. */
  function CallFor(w: World, self: Address, decrypted: Decryption, a: Action): Call {
    match a
    case ExecuteCipher(b) =>
      Call.ExecuteCipher(self, b, BatchHash(w.batcher, b, Cipher), decrypted(b), KeyperIndex(ConfigOf(w, b), self))
    case SkipCipher(b) => Call.SkipCipher(b)
    case ExecutePlain(b) => Call.ExecutePlain(b, Submitted(w, b, Plain))
  }

  predicate BlocksFit(w: World, batchIndex: uint64) {
    var c := ConfigOf(w, batchIndex);
    ClosingBlock(c, batchIndex) + c.executionTimeout < TWO_64
  }

  /** What the contract asks of a batch beyond the keyper's own checks: that its blocks fit
      64 bits, and that the keyper has decrypted something exactly if something was
      submitted. */
  predicate Acceptable(w: World, decrypted: Decryption, a: Action) {
    && BlocksFit(w, a.batchIndex)
    && (a.ExecuteCipher? ==> (BatchHash(w.batcher, a.batchIndex, Cipher) == ZERO_HASH <==> decrypted(a.batchIndex) == []))
  }

  /** The configs are as the keyper expects them: active ones have keypers, and the number
      of keypers is one of the machine's. */
  predicate Sound(w: World) {
    WithKeypers(w.config.configs) && forall i :: 0 <= i < |w.config.configs| ==> |w.config.configs[i].keypers| <= TWO_64
  }

  /** The keyper decides on the contract's next half step. */
  predicate Decides(w: World, k: Keyper, a: Action) {
    && Sound(w) && w.executor.numExecutionHalfSteps + 1 < TWO_64
    && MaybeExecuteHalfStep(k, w.config.configs, w.block, w.executor.numExecutionHalfSteps) == Some(a)
  }

  lemma ConfigFound(w: World, k: Keyper, a: Action)
    requires Decides(w, k, a)
    ensures var b := w.executor.numExecutionHalfSteps / 2;
      && ConfigIndex(w.config.configs, b).Returned? && ConfigOf(w, b).Active() && ConfigOf(w, b).startBatchIndex <= b
      && |ConfigOf(w, b).keypers| <= TWO_64 && a.batchIndex == b
  {
  }

  /** Where its blocks do not fit, nothing can be done about a batch. */
  lemma NoWindowReverts(kec: Keccak, w: World, b: uint64, call: Call)
    requires w.config.configs != [] && (call.ExecuteCipher? || call.SkipCipher? || call.ExecutePlain?) && call.batch == b
    requires ConfigIndex(w.config.configs, b).Returned? && ConfigOf(w, b).Active() && ConfigOf(w, b).startBatchIndex <= b
    requires !BlocksFit(w, b)
    ensures !Step(kec, w, call).Returned?
  {
    BoundariesMean(ConfigOf(w, b), b);
  }

  /** What the decision says about the block, once the batch's blocks fit. */
  lemma DecidedInTime(w: World, k: Keyper, a: Action)
    requires Decides(w, k, a) && BlocksFit(w, a.batchIndex)
    ensures w.executor.numExecutionHalfSteps / 2 == a.batchIndex
    ensures a.ExecutePlain? <==> w.executor.numExecutionHalfSteps % 2 == 1
    ensures ActiveWindow(w.config.configs, a.batchIndex).Returned?
    ensures var win := ActiveWindow(w.config.configs, a.batchIndex).value;
      && win.config == ConfigOf(w, a.batchIndex) && win.config.Active() && |win.config.keypers| <= TWO_64
      && (a.ExecuteCipher? ==> win.end <= w.block < win.timeout && k.self in win.config.keypers)
      && (a.SkipCipher? ==> win.timeout <= w.block)
      && (a.ExecutePlain? ==> win.end <= w.block)
  {
    ConfigFound(w, k, a);
    SendsInTime(k, w.config.configs, w.block, w.executor.numExecutionHalfSteps,
                ConfigIndex(w.config.configs, a.batchIndex).value);
  }

  lemma CipherAccepted(kec: Keccak, w: World, k: Keyper, decrypted: Decryption, a: Action)
    requires w.config.configs != [] && Decides(w, k, a) && a.ExecuteCipher? && BlocksFit(w, a.batchIndex)
    ensures Step(kec, w, CallFor(w, k.self, decrypted, a)).Returned? <==> Acceptable(w, decrypted, a)
  {
    DecidedInTime(w, k, a);
  }

  lemma SkipAccepted(kec: Keccak, w: World, k: Keyper, decrypted: Decryption, a: Action)
    requires w.config.configs != [] && Decides(w, k, a) && a.SkipCipher? && BlocksFit(w, a.batchIndex)
    ensures Step(kec, w, CallFor(w, k.self, decrypted, a)).Returned?
  {
    DecidedInTime(w, k, a);
  }

  lemma PlainAccepted(kec: Keccak, w: World, k: Keyper, decrypted: Decryption, a: Action)
    requires Inv(kec, w) && Decides(w, k, a) && a.ExecutePlain? && BlocksFit(w, a.batchIndex)
    ensures Step(kec, w, CallFor(w, k.self, decrypted, a)).Returned?
  {
    DecidedInTime(w, k, a);
    BoundariesMean(ConfigOf(w, a.batchIndex), a.batchIndex);
    assert BatchOk(kec, w, a.batchIndex);
  }

  /** In any reachable world the contract accepts the transaction that a keyper decides on
      for the next half step, having observed the contract's state, exactly if the batch's
      blocks fit and, for a cipher batch, it is empty if and only if nothing in it could be
      decrypted. */
  lemma AcceptedExactly(kec: Keccak, w: World, k: Keyper, decrypted: Decryption, a: Action)
    requires Inv(kec, w) && Decides(w, k, a)
    ensures Step(kec, w, CallFor(w, k.self, decrypted, a)).Returned? <==> Acceptable(w, decrypted, a)
  {
    if !BlocksFit(w, a.batchIndex) {
      ConfigFound(w, k, a);
      NoWindowReverts(kec, w, a.batchIndex, CallFor(w, k.self, decrypted, a));
    } else {
      match a
      case ExecuteCipher(_) => CipherAccepted(kec, w, k, decrypted, a);
      case SkipCipher(_) => SkipAccepted(kec, w, k, decrypted, a);
      case ExecutePlain(_) => PlainAccepted(kec, w, k, decrypted, a);
    }
  }

  /** A batch in which something was submitted and nothing can be decrypted: its execution
      reverts, so that it can only be skipped after its timeout. */
  lemma NothingDecrypted(kec: Keccak, w: World, k: Keyper, decrypted: Decryption, a: Action)
    requires Inv(kec, w) && Decides(w, k, a) && a.ExecuteCipher? && BlocksFit(w, a.batchIndex)
    requires BatchHash(w.batcher, a.batchIndex, Cipher) != ZERO_HASH && decrypted(a.batchIndex) == []
    ensures Step(kec, w, CallFor(w, k.self, decrypted, a))
         == Reverted("cipherBatchHash should be zero iff transactions is empty")
  {
    DecidedInTime(w, k, a);
  }

  // ----- all actions of one decision

  predicate DecidedAt(w: World, k: Keyper, h: int, a: Action) {
    0 <= h < TWO_64 && WithKeypers(w.config.configs) && MaybeExecuteHalfStep(k, w.config.configs, w.block, h) == Some(a)
  }

  /** The actions are those for the next half steps, in order. */
  predicate DecidesAll(w: World, k: Keyper, acts: seq<Action>) {
    && Sound(w) && w.executor.numExecutionHalfSteps + |acts| < TWO_64
    && forall j :: 0 <= j < |acts| ==> DecidedAt(w, k, w.executor.numExecutionHalfSteps + j, acts[j])
  }

  /** The calls all return, one after the other. */
  predicate AllAccepted(kec: Keccak, w: World, self: Address, decrypted: Decryption, acts: seq<Action>)
    requires w.config.configs != []
    decreases |acts|
  {
    acts != [] ==>
      var r := Step(kec, w, CallFor(w, self, decrypted, acts[0]));
      r.Returned? && AllAccepted(kec, r.value, self, decrypted, acts[1..])
  }

  /** One half step later, and nothing else that decisions depend on has changed. */
  predicate OneOn(w: World, w': World) {
    && w'.config == w.config && w'.block == w.block && w'.batcher == w.batcher && w'.submitted == w.submitted
    && w'.executor.numExecutionHalfSteps == w.executor.numExecutionHalfSteps + 1
  }

  lemma CountsOn(kec: Keccak, w: World, call: Call, w': World)
    requires w.config.configs != [] && (call.ExecuteCipher? || call.SkipCipher? || call.ExecutePlain?)
    requires Step(kec, w, call) == Returned(w')
    ensures OneOn(w, w')
  {
  }

  lemma StillDecided(w: World, w': World, k: Keyper, h: int, a: Action)
    requires w'.config == w.config && w'.block == w.block && DecidedAt(w, k, h, a)
    ensures DecidedAt(w', k, h, a)
  {
  }

  lemma RestDecided(w: World, w': World, k: Keyper, acts: seq<Action>)
    requires acts != [] && DecidesAll(w, k, acts) && OneOn(w, w')
    ensures DecidesAll(w', k, acts[1..])
  {
    forall j | 0 <= j < |acts[1..]|
      ensures DecidedAt(w', k, w'.executor.numExecutionHalfSteps + j, acts[1..][j])
    {
      StillDecided(w, w', k, w.executor.numExecutionHalfSteps + (j + 1), acts[j + 1]);
    }
  }

  lemma StillAcceptable(w: World, w': World, decrypted: Decryption, a: Action)
    requires OneOn(w, w')
    ensures Acceptable(w', decrypted, a) <==> Acceptable(w, decrypted, a)
  {
  }

  /** The actions of a decision, carried out in order: all are accepted exactly if each of
      them is acceptable. */
  lemma {:induction false} AllAcceptedExactly(kec: Keccak, w: World, k: Keyper, decrypted: Decryption, acts: seq<Action>)
    requires Inv(kec, w) && DecidesAll(w, k, acts)
    ensures AllAccepted(kec, w, k.self, decrypted, acts) <==>
      forall j :: 0 <= j < |acts| ==> Acceptable(w, decrypted, acts[j])
    decreases |acts|
  {
    if acts != [] {
      assert DecidedAt(w, k, w.executor.numExecutionHalfSteps, acts[0]);
      AcceptedExactly(kec, w, k, decrypted, acts[0]);
      var call := CallFor(w, k.self, decrypted, acts[0]);
      var r := Step(kec, w, call);
      if r.Returned? {
        StepKeepsInv(kec, w, call);
        CountsOn(kec, w, call, r.value);
        RestDecided(w, r.value, k, acts);
        AllAcceptedExactly(kec, r.value, k, decrypted, acts[1..]);
        RestAcceptable(w, r.value, decrypted, acts);
      }
    }
  }

  lemma RestAcceptable(w: World, w': World, decrypted: Decryption, acts: seq<Action>)
    requires acts != [] && OneOn(w, w')
    ensures (forall j :: 0 <= j < |acts| ==> Acceptable(w, decrypted, acts[j])) <==>
      (Acceptable(w, decrypted, acts[0]) && forall j :: 0 <= j < |acts[1..]| ==> Acceptable(w', decrypted, acts[1..][j]))
  {
    forall j | 0 <= j < |acts[1..]|
      ensures Acceptable(w', decrypted, acts[1..][j]) <==> Acceptable(w, decrypted, acts[j + 1])
    {
      StillAcceptable(w, w', decrypted, acts[j + 1]);
    }
    assert forall j :: 1 <= j < |acts| ==> acts[j] == acts[1..][j - 1];
  }

  ghost predicate Are(actionFor: uint64 -> Option<Action>, halfStep: int, acts: seq<Action>) {
    0 <= halfStep && halfStep + |acts| < TWO_64
    && forall j :: 0 <= j < |acts| ==> actionFor(halfStep + j) == Some(acts[j])
  }

  lemma {:induction false} DueAre(actionFor: uint64 -> Option<Action>, halfStep: uint64, count: nat)
    requires count > 0 ==> halfStep + count < TWO_64
    ensures Are(actionFor, halfStep, Due(actionFor, halfStep, count))
  {
    if count > 0 {
      DueAre(actionFor, halfStep, count - 1);
    }
  }

  lemma ActionDecided(w: World, v: View, h: uint64, a: Action)
    requires v.configs == w.config.configs && v.block == w.block && v.ActionFor()(h) == Some(a)
    ensures DecidedAt(w, v.keyper, h, a)
  {
  }

  lemma EachDecided(w: World, v: View, acts: seq<Action>, j: nat)
    requires v.configs == w.config.configs && v.block == w.block
    requires Are(v.ActionFor(), v.nextHalfStep, acts) && j < |acts|
    ensures DecidedAt(w, v.keyper, v.nextHalfStep + j, acts[j])
  {
    ActionDecided(w, v, v.nextHalfStep + j, acts[j]);
  }

  lemma DecisionAre(v: View, pending: Option<uint64>)
    requires v.Valid()
    ensures Are(v.ActionFor(), v.nextHalfStep, Decision(v, pending).0)
  {
    if v.CurrentConfig().Active() {
      DueAre(v.ActionFor(), v.nextHalfStep, v.HalfStepsDue());
    }
  }

  /** What a keyper decides that has observed the contract's state. */
  lemma ObservedDecides(w: World, v: View, acts: seq<Action>)
    requires Sound(w) && Are(v.ActionFor(), v.nextHalfStep, acts)
    requires v.configs == w.config.configs && v.block == w.block && v.nextHalfStep == w.executor.numExecutionHalfSteps
    ensures DecidesAll(w, v.keyper, acts)
  {
    forall j | 0 <= j < |acts|
      ensures DecidedAt(w, v.keyper, v.nextHalfStep + j, acts[j])
    {
      EachDecided(w, v, acts, j);
    }
  }

  /** The transactions of one decision of a keyper that has observed the contract's state
      are all accepted, one after the other, exactly if each of them is acceptable. */
  lemma DecisionAcceptedExactly(kec: Keccak, w: World, v: View, pending: Option<uint64>, decrypted: Decryption)
    requires Inv(kec, w) && v.Valid() && Sound(w)
    requires v.configs == w.config.configs && v.block == w.block && v.nextHalfStep == w.executor.numExecutionHalfSteps
    ensures AllAccepted(kec, w, v.keyper.self, decrypted, Decision(v, pending).0) <==>
      forall j :: 0 <= j < |Decision(v, pending).0| ==> Acceptable(w, decrypted, Decision(v, pending).0[j])
  {
    DecisionAre(v, pending);
    ObservedDecides(w, v, Decision(v, pending).0);
    AllAcceptedExactly(kec, w, v.keyper, decrypted, Decision(v, pending).0);
  }
}
