# Shielder: a verified model

Shielder lets users submit encrypted transactions to a contract; a set of keypers
generates a key together, decrypts each batch after it has closed and executes it.
This project models its four connected parts and proves what holds over whole runs.

- **Common.** Results and missing values (`Outcome.dfy`), 64 bit integers (`Widths.dfy`),
  elements and sizes of sets (`Sets.dfy`), bytes (`ByteValues.dfy`), addresses
  (`Addresses.dfy`).
- **Cryptography.** Modular arithmetic up to Fermat's theorem (`Modular.dfy`), groups in
  the exponent (`Groups.dfy`), Feldman commitments (`Feldman.dfy`), Lagrange
  coefficients and interpolation at 0 (`Lagrange.dfy`), keys and shares (`Keys.dfy`),
  what few shares tell (`Secrecy.dfy`), padding, encryption and encoding (`Encryption.dfy`).
- **Keypers.** The DKG object (`PureDKG.dfy`), what it takes from messages in any order
  (`DkgPhases.dfy`), the collection of epoch key shares
  (`EpochKG.dfy`), decryption by `threshold` many keypers (`ThresholdDecryption.dfy`),
  the observed event lists and their filters (`Observe.dfy`), a step that feeds events to
  the DKG (`KeyperSync.dfy` as functions, `Decider.dfy` as run),
  sending the evaluations (`Outbox.dfy`), steps in a row (`Chunking.dfy`), the main loop
  with crashes (`KeyperRuns.dfy`), what saving and loading does to a DKG
  (`Restarts.dfy`) and exactly when that is harmless (`HarmlessRestarts.dfy`, with the
  chains that tell the difference in `Chains.dfy`), runs of the DKG (`DkgRuns.dfy`),
  agreement of keypers (`Agreement.dfy`), what honest keypers achieve
  (`HonestKeypers.dfy`), up to the decrypted message (`HonestDecryption.dfy`), a run in
  which a restart does harm (`HarmfulRestart.dfy`), the numbering of actions
  (`Actions.dfy`), when a half step is sent (`Execution.dfy`), and whether the contract
  accepts it (`Delivery.dfy`).
- **Contracts.** The config contract (`ConfigContract.dfy`), the batcher and the executor
  (`Batches.dfy`), and all three as one transition system (`MainChain.dfy`).
- **The replicated app.** Voting (`Voting.dfy`), powermaps and updates
  (`Validators.dfy`), deliveries and blocks (`ShielderApp.dfy`), whole runs
  (`AppRuns.dfy`), who decides in them (`Quorums.dfy`), the start of configs
  (`StartVotes.dfy`), votes that block each other (`StuckVotes.dfy`), the DKG messages
  that are taken (`DkgInstances.dfy`), the observer's eons (`Eons.dfy`), and what the log
  tells (`Logs.dfy`).

Four results tie the parts together: `Agreement.ChainToMessage` goes from a chain of
arbitrary DKG messages, seen by two keypers in steps of their own, to a message that one
keyper's public key encrypts and the other's epoch key decrypts;
`HonestDecryption.HonestKeypersDecrypt` says that if `threshold` many keypers are honest
and publish their shares, every keyper gets the key that decrypts, whatever the others
send; `Delivery.DecisionAcceptedExactly` says which of a keyper's transactions the
contract accepts in any reachable state; and `MainChain.ExecutorSafety` covers every
interleaving of calls to the three contracts.

What the source updates in place is a class whose methods have loops and are proved
against functions on values; the theorems are about those functions.

## Conventions

- The groups G1, G2 and GT are modelled by exponents modulo the group order q: base
  multiplication is reduction mod q, the pairing is the product. This is faithful for
  cyclic groups of prime order. That q is prime and larger than the number of keypers
  are hypotheses of the theorems that need them.
- keccak and the hash of GT elements are function parameters. Where the argument needs
  it, the hash is assumed not to collide and not to be zero on the inputs at hand.
- Random values (polynomials, sigma) and whether a message can be decrypted are
  parameters. A keyper that crashes before it has saved a decision deals anew after the
  restart; its polynomial is the one of the surviving run.
- Solidity's arithmetic reverts on overflow, Go's wraps around; both are written out
  where a value can get there: batch boundaries, half steps, staggering, the conversion
  of thresholds to int. Counters that go up by one (eons, action numbers) are unbounded.
- The degree of a polynomial is an int although the source computes it as uint64; it is
  only compared with another such difference, so a wrap is not visible.
- That thresholds are positive and keypers distinct, where a theorem asks for it, is what
  the checks on a batch config ensure (`shuttermint/keyper/shutterevents/batchconfig.go:28-40`
  and `:53-55`). That the phases start with the eon is how phase lengths are made
  (`shuttermint/keyper/decide.go:417-424`).
- A DKG has one phase length. The source judges events by the one saved with the DKG
  (`shuttermint/keyper/decide.go:104,127,174,206`) and the next block by the configured
  one (`:561`); they are the same unless a keyper is restarted with another
  `DKGPhaseLength` in the middle of a DKG, which the model excludes. Keypers of one eon
  are configured alike.
- The iteration over a Go map is a loop that takes elements in any order.
- Setting the next config field by field is one operation, `SetNext`. An overflow in
  the seam check of scheduling is reported as "not seamless"; both revert.

## Where the code does not keep what one would expect

- **A restart in the middle of a DKG.** The state is saved with gob
  (`shuttermint/keyper/keyper.go:262-326`), which does not keep nil elements of a list: a
  missing commitment is loaded as an empty one
  (`shuttermint/shcrypto/feldman.go:124-147`) and a missing value as 0, and both count as
  received. `HarmfulRestart.RestartBreaksAgreement` is a run in which two keypers finish
  with different public keys because one of them restarted while dealing.
  `HarmlessRestarts.RestartHarmlessExactly` says which saved states a restart does not
  harm; `Restarts.Mild` is the condition, on the saved state alone: while dealing,
  everything has arrived; later, what is missing has come up in public or could not be
  mistaken. The run theorems ask that each restart was from such a state
  (`DkgRuns.Benign`), or from one in which nothing was missing (`DkgRuns.Faithful`) where
  they speak of the DKG itself and not of its outcome.
- **A restart before the first decision.** Loading a state whose sync height is 0 sets it
  to the saved block (`shuttermint/keyper/keyper.go:281-284`). A keyper that has saved
  blocks without ever deciding, because one of the chains was out of sync, and restarts
  after an eon has begun, never reads the events before that block.
  `DkgRuns.FixUpHarmlessExactly` states exactly when that is harmless, and the run
  theorems ask for it (`KeyperRuns.Orderly`).
- **A restart with a half step pending.** On starting, the pending half step is forgotten
  if no transaction is under way and no action was saved
  (`shuttermint/keyper/keyper.go:214-217`), and half step 0 always, since gob does not
  keep a pointer to 0. `Execution.RestartSendsTwice` is a run that sends a half step
  twice, and `Execution.NeverSentTwice` says exactly when no run does.
- **Start blocks of configs.** After an inactive config the start block of its successor
  is not compared with its own (`contracts/contracts/ConfigContract.sol:395-400`).
  `Configs.StartsMayDecrease` is a run in which start blocks decrease, and
  `Configs.StartsIncreaseExactly` says exactly which runs keep them increasing. Where they
  do, unscheduling removes exactly the late configs (`Configs.KeptExactly`) and keypers
  decide on closed batches only (`Execution.OnlyClosedBatches`).
- **Batches that nobody can decrypt.** Transactions that cannot be decrypted are skipped
  (`shuttermint/keyper/observe/mainchain.go:396-413`), and the contract wants a cipher
  batch to be executed with transactions exactly if something was submitted
  (`contracts/contracts/ExecutorContract.sol:111-129`). If something was submitted and
  none of it can be decrypted, the execution that a keyper sends reverts
  (`Delivery.NothingDecrypted`), and the batch can only be skipped after its timeout.
  `Delivery.AcceptedExactly` says exactly what is accepted.
- **Padding.** Unpadding reads the last byte only, and takes an empty list for the empty
  message. `Encryption.UnpaddedExactly` says which of the accepted lists are paddings.
- **Places of keypers.** Distinct keypers get distinct places for a half step only if the
  sum of half step and keyper index does not wrap around, or the number of keypers divides
  2^64 (`Execution.PlacesDistinctExactly`).
- **Block boundaries.** A keyper's block boundaries are right only if the timeout block
  fits uint64, which is also when the contract can compute them
  (`Execution.BoundariesAgree`, and `Execution.BoundariesMayDiffer` for a config where
  they differ).
- **Votes on starting a config.** They are kept in one set that is not cleared when a
  further config is added (`shuttermint/app/app.go:146-157,448,766-772`).
  `StartVotes.StartedWithoutVotes` is a run in which a config is started by a vote for the
  one before it, and `StartVotes.LeftOverVotes` says exactly when that can happen.
- **Votes for a config cannot be taken back** (`shuttermint/app/configvoting.go:20-36`), so
  that split votes end all changes of configs: `StuckVotes.SplitVote` is such a run, and
  `StuckVotes.NextConfigExactly` says exactly when a further config is still possible.
- **Very large thresholds.** Thresholds are converted to signed integers. One of 2^63 or
  more passes the check on a config (`shuttermint/keyper/shutterevents/batchconfig.go:28-40`)
  and then a single vote decides (`Quorums.OneVoteDecides`, `Quorums.ThresholdsInRange`).

## Model

| member | source | states |
|---|---|---|
| `Modular.Fermat` | shuttermint/shcrypto/keys.go:187-191 | x^(q-1) is 1 mod a prime q for every x that is not a multiple of q, the fact behind inverting by a power |
| `Lagrange.InvertCorrect` | shuttermint/shcrypto/keys.go:188-191 | x^(q-2) is a true inverse of every nonzero x mod a prime q |
| `Lagrange.FactorCorrect` | shuttermint/shcrypto/keys.go:164-173 | the factor for keyper k times (x_i - x_k) is -x_k mod q, and the divisor is never 0 for distinct keypers below q |
| `Lagrange.LagrangeCoefficient` | shuttermint/shcrypto/keys.go:175-186 | the loop over the other keypers computes the product of the factors, reduced mod q |
| `Lagrange.WeightsSumToOne` | shuttermint/shcrypto/keys.go:164-191 | for any nonempty set of distinct keypers the coefficients add up to 1 mod q |
| `Lagrange.Interpolation` | shuttermint/shcrypto/keys.go:164-191 | for distinct keypers and any polynomial with at most that many coefficients, the weighted sum of its values is its value at 0 |
| `Feldman.NewPolynomial` | shuttermint/shcrypto/feldman.go:31-45 | accepts exactly the nonempty lists of coefficients in 0..q-1, and keeps them unchanged |
| `Feldman.Eval` | shuttermint/shcrypto/feldman.go:73-82 | the Horner loop computes the power sum of the coefficients mod q, fully reduced for a valid polynomial |
| `Feldman.EvalForKeyper` | shuttermint/shcrypto/feldman.go:85-88 | keyper i gets the value at i + 1 |
| `Feldman.ComputeGammas` | shuttermint/shcrypto/feldman.go:102-109 | one group element per coefficient, equal to that coefficient in the exponent |
| `Feldman.Pi` | shuttermint/shcrypto/feldman.go:112-122 | the running-power loop computes the commitment polynomial at x in the exponent |
| `Feldman.VerifyPolyEval` | shuttermint/shcrypto/feldman.go:170-177 | accepts exactly if the commitment has the expected degree and the value matches it in the exponent |
| `Feldman.FeldmanExact` | shuttermint/shcrypto/feldman.go:73-177 | against an honest commitment of the right degree, verification accepts v for keyper i if and only if v is p(i+1) mod q |
| `Keys.ComputeEonSecretKeyShare` | shuttermint/shcrypto/keys.go:82-90 | the sum of all received values mod q |
| `Keys.ComputeEonPublicKeyShare` | shuttermint/shcrypto/keys.go:93-102 | the joint commitment polynomial at i + 1 |
| `Keys.ComputeEonPublicKey` | shuttermint/shcrypto/keys.go:105-113 | the joint commitment polynomial at 0 |
| `Keys.VerifyShareExact` | shuttermint/shcrypto/keys.go:152-162 | the pairing check accepts a share if and only if it is epoch id times the public key share (in the exponent) |
| `Keys.ComputeEpochSecretKey` | shuttermint/shcrypto/keys.go:130-149 | fails exactly if the numbers of indices and shares are not both the threshold; otherwise the weighted sum of the shares |
| `Keys.CombinedKey` | shuttermint/shcrypto/keys.go:130-149 | correct shares of as many distinct keypers as the polynomial has coefficients combine to epoch id times the joint secret |
| `Keys.JointPolynomialValue` | shuttermint/shcrypto/keys.go:82-113 | summing the dealers' values at a point is evaluating one joint polynomial there |
| `Keys.EpochIDsDiffer` | shuttermint/shcrypto/keys.go:123-127 | multiples of the ids of different epochs by anything but 0 are different, and none is 0 |
| `Secrecy.SharesKeepSecret` | shuttermint/shcrypto/feldman.go:73-88 | fewer shares than the threshold fit every secret: some polynomial of the same length gives exactly these shares and has that secret at 0 |
| `Encryption.PadMessage` | shuttermint/shcrypto/encryption.go:149-162 | the loop cuts the padded message into blocks in order |
| `Encryption.UnpadMessage` | shuttermint/shcrypto/encryption.go:165-192 | drops as many bytes as the last byte says, which must be 1 to 32; no blocks are the empty message |
| `Encryption.PaddingRoundTrip` | shuttermint/shcrypto/encryption.go:149-192 | unpadding undoes padding for messages of every length |
| `Encryption.UnpaddedExactly` | shuttermint/shcrypto/encryption.go:146-192 | what is accepted is the padding of the result if and only if there is a last block and all bytes dropped are the same |
| `Encryption.AcceptedThoughNoPadding` | shuttermint/shcrypto/encryption.go:165-192 | block lists that are accepted although they are no padding |
| `Encryption.UnpaddedCuts` | shuttermint/shcrypto/encryption.go:165-192 | refuses exactly what cannot be the last byte of a padding, and otherwise cuts 1 to 32 bytes off the end |
| `Encryption.ComputeBlockKeys` | shuttermint/shcrypto/encryption.go:109-119 | block i's key is the hash of sigma and the varint of i |
| `Encryption.KeyBufferHolds` | shuttermint/shcrypto/encryption.go:109-119 | reading the reused buffer by a varint decoder of its own gives the block's number back, for every number below 2^63 |
| `Encryption.BlockKeysDiffer` | shuttermint/shcrypto/encryption.go:109-119 | no two blocks, of one message or of messages with different sigma, have the same key, if the hash does not collide on what is hashed |
| `Encryption.ComputeC3` | shuttermint/shcrypto/encryption.go:98-107 | masks each block with its own key |
| `Encryption.DecryptBlocks` | shuttermint/shcrypto/encryption.go:136-147 | unmasks each block with its own key |
| `Encryption.MaskRoundTrip` | shuttermint/shcrypto/encryption.go:98-147 | decrypting undoes masking for every sigma and any number of blocks |
| `Encryption.EqualBlocksMaskedApart` | shuttermint/shcrypto/encryption.go:98-119 | equal blocks at different places of a message look different when masked, if the hash does not collide |
| `Encryption.Encrypt` | shuttermint/shcrypto/encryption.go:72-107 | the three parts of the ciphertext, with r derived from sigma |
| `Encryption.Decrypt` | shuttermint/shcrypto/encryption.go:122-147 | recovers sigma by the pairing, unmasks and unpads |
| `Encryption.EncryptionRoundTrip` | shuttermint/shcrypto/encryption.go:72-147 | a key congruent to epoch id times the secret of the public key decrypts every message, for every sigma |
| `Encryption.ValueRoundTrip` | shuttermint/keyper/decide.go:157-159 | a value sent as its bytes is read back as that value |
| `Encryption.ValuesDiffer` | shuttermint/shcrypto/encryption.go:36-42 | byte strings of one length have different values |
| `Encryption.SigmaBound` | shuttermint/shcrypto/encryption.go:72-96 | the first part of a ciphertext determines sigma, as far as the hash does |
| `Encryption.WrongKeyGarbles` | shuttermint/shcrypto/encryption.go:122-147 | with any key other than the right one no block of the padded message comes out right, unless hashes collide or r is 0 |
| `Encryption.Marshal` | shuttermint/shcrypto/encoding.go:11-25 | C1, then C2, then all blocks of C3 |
| `Encryption.Unmarshal` | shuttermint/shcrypto/encoding.go:27-51 | checks the minimal length, the point and that whole blocks follow |
| `Encryption.MarshalRoundTrip` | shuttermint/shcrypto/encoding.go:11-51 | unmarshalling a marshalled message gives it back, for any number of blocks |
| `Encryption.UnmarshalRoundTrip` | shuttermint/shcrypto/encoding.go:11-51 | marshalling what was unmarshalled gives the bytes back, if the point encoding is canonical |
| `Encryption.MarshaledLayout` | shuttermint/shcrypto/encoding.go:11-25 | where each part of the encoding is: 128 bytes of point, then blocks of 32 bytes |
| `DistributedKeyGeneration.PureDKG.SetPhase` | shuttermint/keyper/puredkg/puredkg.go:102-107 | takes the next phase; its precondition is the check on which the source panics |
| `DistributedKeyGeneration.PureDKG.StartPhase1Dealing` | shuttermint/keyper/puredkg/puredkg.go:133-169 | the commitment is the dealt polynomial's, every other keyper gets its value, the own value is kept |
| `DistributedKeyGeneration.PureDKG.StartPhase2Accusing` | shuttermint/keyper/puredkg/puredkg.go:172-190 | accuses, in increasing order, exactly the other dealers whose value or commitment is missing or does not verify |
| `DistributedKeyGeneration.PureDKG.StartPhase3Apologizing` | shuttermint/keyper/puredkg/puredkg.go:193-207 | answers every accusation against this keyper once, with its own polynomial's value for the accuser |
| `DistributedKeyGeneration.PureDKG.HandlePolyCommitmentMsg` | shuttermint/keyper/puredkg/puredkg.go:344-361 | stores the first commitment of the expected degree from a dealer in time, and rejects all else without a trace |
| `DistributedKeyGeneration.PureDKG.HandlePolyEvalMsg` | shuttermint/keyper/puredkg/puredkg.go:364-380 | stores the first valid value addressed to this keyper in time, and rejects all else without a trace |
| `DistributedKeyGeneration.PureDKG.HandleAccusationMsg` | shuttermint/keyper/puredkg/puredkg.go:383-394 | adds an accusation once, up to the accusing phase |
| `DistributedKeyGeneration.PureDKG.HandleApologyMsg` | shuttermint/keyper/puredkg/puredkg.go:397-411 | adds a valid apology once, up to the apologizing phase |
| `DistributedKeyGeneration.PureDKG.IsCorrupt` | shuttermint/keyper/puredkg/puredkg.go:300-330 | a dealer is corrupt if and only if it has no commitment, a wrong apology or an unanswered accusation |
| `DistributedKeyGeneration.PureDKG.PolyEval` | shuttermint/keyper/puredkg/puredkg.go:332-341 | an apology to this keyper takes precedence over the value sent |
| `DistributedKeyGeneration.PureDKG.ComputeResult` | shuttermint/keyper/puredkg/puredkg.go:245-298 | succeeds exactly if finalized, no dealer is fine by the chain but not for this keyper, and enough take part; then corrupt dealers count as zero |
| `DistributedKeyGeneration.SucceedsExactly` | shuttermint/keyper/puredkg/puredkg.go:245-298 | the DKG succeeds if and only if it is over, nothing is wrong for this keyper alone, and the set of dealers that are not corrupt has at least threshold many members |
| `DkgPhases.PhasesSettle` | shuttermint/keyper/puredkg/puredkg.go:109-131 | whatever messages and steps come in whatever order: what is held stays, what belongs to a phase that is over does not change, and a finished DKG stays as it is |
| `DkgPhases.NothingInvented` | shuttermint/keyper/puredkg/puredkg.go:344-411 | everything held came in a message of the eon, for this keyper, in range and before its phase was over, or from the keyper's own dealing |
| `DkgPhases.NothingLost` | shuttermint/keyper/puredkg/puredkg.go:344-411 | every such message leaves an entry for good: its own, or that of an earlier one |
| `DistributedKeyGeneration.ResultShares` | shuttermint/keyper/puredkg/puredkg.go:245-341 | whatever the dealers did, a successful result describes one polynomial with threshold coefficients that is determined by the broadcast view |
| `DistributedKeyGeneration.DKGSoundness` | shuttermint/keyper/puredkg/puredkg.go:245-341 | keypers with one broadcast view whose DKG succeeds have the same public key and shares, and secret shares on one polynomial |
| `DistributedKeyGeneration.HonestNeverCorrupt` | shuttermint/keyper/puredkg/puredkg.go:193-330 | a dealer that commits honestly and answers accusations is never judged corrupt, whatever accusations there are |
| `DistributedKeyGeneration.HonestNotAccused` | shuttermint/keyper/puredkg/puredkg.go:172-190 | a keyper that has an honest dealer's value does not accuse it |
| `DistributedKeyGeneration.AllHonestSucceeds` | shuttermint/keyper/puredkg/puredkg.go:245-298 | if all dealers are honest and all messages have arrived, the result is computed |
| `EpochKeyGeneration.AcceptedExact` | shuttermint/keyper/epochkg/epochkg.go:88-110 | a share is accepted if and only if it is the sender's correct share of the joint secret for the epoch |
| `EpochKeyGeneration.EpochKG.ComputeShare` | shuttermint/keyper/epochkg/epochkg.go:51-54 | a keyper's own share is the correct one |
| `EpochKeyGeneration.EpochKG.AddEpochSecretKeyShare` | shuttermint/keyper/epochkg/epochkg.go:66-86 | the new state: pending share, or finished key; an error if and only if the sender's share is already pending |
| `EpochKeyGeneration.EpochKG.HandleEpochSecretKeyShare` | shuttermint/keyper/epochkg/epochkg.go:88-110 | the new state; no error if and only if the epoch has its key already, or the share is right and the first of its sender |
| `EpochKeyGeneration.RunKeepsInv` | shuttermint/keyper/epochkg/epochkg.go:56-110 | after any shares in any order: pending shares are correct, from distinct senders and fewer than the threshold, no epoch is pending and finished, and every stored key is the joint secret times the epoch id, never the nil of the error case |
| `EpochKeyGeneration.KeyExactlyWhenEnough` | shuttermint/keyper/epochkg/epochkg.go:56-110 | an epoch has a key if and only if threshold many distinct senders have sent a correct share |
| `EpochKeyGeneration.OrderIndependent` | shuttermint/keyper/epochkg/epochkg.go:56-110 | the stored keys depend on which shares came in, not on their order or repetition |
| `EpochKeyGeneration.EpochKeysDiffer` | shuttermint/shcrypto/keys.go:116-127 | different epochs have different keys and none has key 0, unless the joint secret is 0 |
| `EpochKeyGeneration.SharesOfOneEpoch` | shuttermint/keyper/epochkg/epochkg.go:88-110 | a share accepted for one epoch is accepted for no other, unless the sender's secret share is 0 |
| `ThresholdDecryption.EndToEnd` | shuttermint/shcrypto/keys.go:82-149 | for any dealers' polynomials with t coefficients, message, epoch and sigma, the key combined from any t distinct keypers' shares decrypts the message |
| `ThresholdDecryption.StoredKeyDecrypts` | shuttermint/shcrypto/encryption.go:72-145 | the same through the DKG result and the share collector, under arbitrary dealers and incoming shares |
| `ThresholdDecryption.OtherEpochsKeyGarbles` | shuttermint/shcrypto/encryption.go:72-147 | with the key of another epoch no block of a message comes out right, unless hashes collide or the secret is 0 |
| `Configs.ConfigContract.ConfigIndexForBatchIndex` | contracts/contracts/ConfigContract.sol:73-85 | the search from the end finds the last config that starts at or before the batch |
| `Configs.BoundariesMean` | contracts/contracts/ConfigContract.sol:442-469 | opening, closing and timeout blocks in closed form; the asserts hold for active configs from their first batch on |
| `Configs.ConfigContract.Schedule` | contracts/contracts/ConfigContract.sol:364-408 | appends the next config exactly if it joins seamlessly and leaves enough notice, and resets it |
| `Configs.ConfigContract.Unschedule` | contracts/contracts/ConfigContract.sol:414-436 | drops the configs from a start block on, if they are far enough in the future |
| `Configs.ReachableValid` | contracts/contracts/ConfigContract.sol:364-436 | in every run the guard config stays and consecutive configs join seamlessly |
| `Configs.BatchesTileBlocks` | contracts/contracts/ConfigContract.sol:364-408 | the last batch of an active config closes on the block the next config starts |
| `Configs.StartsIncreaseExactly` | contracts/contracts/ConfigContract.sol:364-436 | start blocks increase in every state of a run if and only if every config scheduled after an inactive one starts later than it |
| `Configs.FromDeployment` | contracts/contracts/ConfigContract.sol:364-436 | the same for every run from deployment |
| `Configs.StartsMayDecrease` | contracts/contracts/ConfigContract.sol:395-400 | two accepted inactive configs, from block 1000 and from block 500 on |
| `Configs.KeptExactly` | contracts/contracts/ConfigContract.sol:414-436 | where start blocks increase, unscheduling keeps exactly the first config and those that start before the given block |
| `Configs.RulesFreeze` | contracts/contracts/ConfigContract.sol:364-469 | once a batch of an active config has opened, no later scheduling or unscheduling changes its config, boundaries or timeout |
| `Configs.NoticeIsGiven` | contracts/contracts/ConfigContract.sol:364-436 | which configs start within the heads-up from a block on is settled at that block, whatever is scheduled or unscheduled later |
| `Configs.OnlyOwnerChanges` | contracts/contracts/ConfigContract.sol:364-436 | calls by others than the owner change nothing, in any number |
| `Batches.ChainInjective` | contracts/contracts/BatcherContract.sol:52-112 | two lists with the same chained hash are equal, if the hash does not collide or vanish on their preimages |
| `Batches.BatcherContract.AddTx` | contracts/contracts/BatcherContract.sol:52-112 | adds to the chained hash and the size of an open batch within the limits, or reverts without a trace |
| `Batches.ExecutorContract.ExecuteTransactions` | contracts/contracts/ExecutorContract.sol:236-261 | the loop folds the executed transactions into the same chained hash |
| `Batches.ExecutorContract.ExecuteCipher` | contracts/contracts/ExecutorContract.sol:59-152 | skips after the timeout, otherwise checks time, keyper and hash and writes the receipt |
| `Batches.ExecutorContract.SkipCipher` | contracts/contracts/ExecutorContract.sol:155-184 | skips the cipher half step from the timeout on |
| `Batches.ExecutorContract.ExecutePlain` | contracts/contracts/ExecutorContract.sol:189-233 | executes the plain half step if the list has the submitted hash |
| `MainChain.ExecutorSafety` | contracts/contracts/ExecutorContract.sol:59-233 | after any calls to the three contracts from deployment on: no assert fails, half steps alternate cipher and plain in batch order, and only closed batches are executed |
| `MainChain.AssertsNeverFail` | contracts/contracts/ExecutorContract.sol:205-216 | no call fails an assert in any state with the invariant, the one on the plain batch's config included |
| `MainChain.NoLateTransactions` | contracts/contracts/BatcherContract.sol:52-112 | no transaction enters a batch, cipher or plain, after its first half step |
| `MainChain.PlainListIsSubmittedList` | contracts/contracts/ExecutorContract.sol:189-233 | the executed plain list is the submitted list in submission order, if the hash does not collide on them |
| `MainChain.CipherReceipt` | contracts/contracts/ExecutorContract.sol:125-151 | a receipt holds the hash of the submitted cipher batch; an empty execution means an empty batch |
| `MainChain.RunKeepsInv` | contracts/contracts/ExecutorContract.sol:59-233 | hashes, sizes, receipts and the half-step counter stay in step with what was submitted and executed |
| `MainChain.OnlyKeypersExecute` | contracts/contracts/ExecutorContract.sol:59-152 | only a keyper of the batch's config executes its cipher half step, only between closing and timeout, and the receipt names it; later calls only skip |
| `MainChain.NoEarlySkip` | contracts/contracts/ExecutorContract.sol:155-184 | nobody skips a cipher half step before its timeout |
| `MainChain.AllByKeypers` | contracts/contracts/ExecutorContract.sol:59-184 | after any calls from deployment on: every receipt names a keyper of its batch's config, and what was skipped had timed out |
| `MainChain.ExecutedExactly` | contracts/contracts/ExecutorContract.sol:59-233 | a half step is carried out if and only if it is the next one and due, in terms of what was submitted; so from the timeout on everybody can end a cipher half step, and then everybody can execute the plain one |
| `MainChain.SubmittedExactly` | contracts/contracts/BatcherContract.sol:52-112 | a transaction is accepted if and only if its batch is open, it is not empty, it and its batch are within the size limits, and the fee is paid; then it is the last of its list and nothing else changes |
| `Observe.Search` | shuttermint/keyper/observe/shutter.go:119-165 | binary search finds the first event at or above the height |
| `Observe.Get` | shuttermint/keyper/observe/shutter.go:119-165 | on sorted lists each getter returns what a plain filter by height would |
| `Observe.ApplyFilter` | shuttermint/keyper/observe/shutter.go:106-117 | the four DKG lists are cut to the events from the height on, and stay sorted |
| `Observe.FilterInvisible` | shuttermint/keyper/observe/shutter.go:106-221 | after any interleaving of filters and new events, reading at or above all filter heights gives the unfiltered list |
| `Observe.OpsKeepSorted` | shuttermint/keyper/observe/shutter.go:106-221 | filtering and appending keep lists sorted, so the search stays valid |
| `Addresses.FindIndex` | shuttermint/medley/medley.go:25-32 | the first position of an address, or none |
| `KeyperSync.WindowSplit` | shuttermint/keyper/decide.go:554-582 | two steps together read each event exactly once |
| `KeyperSync.FilteredWindow` | shuttermint/keyper/decide.go:558-564 | reading from a list filtered up to the sync height gives the same events as the chain |
| `KeyperSync.CommitmentsExact` | shuttermint/keyper/decide.go:102-122 | a DKG fed in time holds each dealer's first commitment that counts |
| `KeyperSync.AccusationsExact` | shuttermint/keyper/decide.go:172-202 | a DKG fed in time holds exactly the accusations made in the accusing phase |
| `KeyperSync.PolyEvalsExact` | shuttermint/keyper/decide.go:124-170 | a DKG fed in time holds, for each other dealer, the first value in range that it sent this keyper while dealing |
| `KeyperSync.ApologiesExact` | shuttermint/keyper/decide.go:204-235 | a DKG fed in time holds, for each accusation, the first value in range given in answer in the apologizing phase |
| `Decider.SyncCommitments` | shuttermint/keyper/decide.go:102-122 | the loop feeds the in-phase commitments of known senders, in order |
| `Decider.SyncPolyEvals` | shuttermint/keyper/decide.go:124-170 | both loops feed the decryptable in-phase values addressed to this keyper, never its own |
| `Decider.SyncAccusations` | shuttermint/keyper/decide.go:172-202 | both loops feed the in-phase accusations |
| `Decider.SyncApologies` | shuttermint/keyper/decide.go:204-235 | both loops feed the in-phase apologies |
| `Decider.SyncDKGWithEon` | shuttermint/keyper/decide.go:489-582 | one step on the object; the phase check never panics, messages are sent only if the next block still lies in their phase, with the right commitment, the right value for every other keyper, exactly the accusations due and an answer to each accusation; the result is that of the finished DKG |
| `Outboxes.Outbox.SendPolyEvals` | shuttermint/keyper/decide.go:446-487 | while dealing, sends what has a known receiver key and keeps the rest; later drops all |
| `Outboxes.EvalsConserved` | shuttermint/keyper/decide.go:446-487 | over all steps of the dealing phase each evaluation is sent once or still waits |
| `Outboxes.NoneWaitsInVain` | shuttermint/keyper/decide.go:446-487 | no evaluation waits whose receiver had a known key at some step |
| `Chunking.InPhaseAccepted` | shuttermint/keyper/decide.go:102-235 | no event whose height lies in its phase is rejected for phase |
| `Chunking.SyncByParts` | shuttermint/keyper/decide.go:554-582 | a step can be computed list by list |
| `Chunking.StepsCompose` | shuttermint/keyper/decide.go:554-582 | cutting a stretch of the chain in two steps makes no difference |
| `KeyperRuns.RunIsLikeOneStep` | shuttermint/keyper/decide.go:1127-1151 | for any run of the main loop, any effect of steps and of loading, and any relation they keep: the object is related to what one step from the eon's start makes |
| `Restarts.ReloadAlike` | shuttermint/shcrypto/feldman.go:124-147 | a saved DKG in which nothing that is missing can matter any more stays like the one that was never saved |
| `Restarts.StepKeepsAlike` | shuttermint/keyper/decide.go:554-582 | DKGs that are alike stay alike through every step |
| `Restarts.AlikeOutcome` | shuttermint/keyper/puredkg/puredkg.go:216-330 | DKGs that are alike succeed together, with the same result |
| `HarmlessRestarts.StepMakesSaved` | shuttermint/keyper/decide.go:554-582 | whatever a step makes before the eon ends is a saved state in the sense of the next two rows |
| `HarmlessRestarts.RestartHarmlessExactly` | shuttermint/keyper/keyper.go:262-326 | for a keyper that can still succeed, a restart leaves the outcome as it is on every chain if and only if, while dealing, everything has arrived, and later every dealer without a commitment is involved in an accusation and every missing value is owed in public or cannot be mistaken for 0 |
| `HarmlessRestarts.ObjectRestoredExactly` | shuttermint/keyper/keyper.go:262-326 | a restart leaves the DKG itself as it was if and only if no commitment and no value is missing |
| `DkgRuns.RunIsOneStep` | shuttermint/keyper/decide.go:554-597 | after any run whose restarts find nothing missing the DKG is what one step from the eon's start makes |
| `DkgRuns.ChunkingIndependence` | shuttermint/keyper/decide.go:554-597 | two such runs over the same events, however they cut the chain, repeat or skip steps and crash, have the same DKG once they have decided on the same block |
| `DkgRuns.BenignOutcome` | shuttermint/keyper/decide.go:554-597 | after any run whose restarts do no harm a finished DKG has the outcome that one step over the chain would have given it |
| `DkgRuns.FixUpHarmlessExactly` | shuttermint/keyper/keyper.go:281-284 | the sync height fix-up on loading is harmless on all chains if and only if the saved block is not beyond the eon's start; otherwise a commitment in the first block is missed |
| `HarmfulRestart.RestartBreaksAgreement` | shuttermint/keyper/keyper.go:262-326 | a chain and two runs, one with a restart while dealing, after which both keypers succeed with public keys 1 and 3 |
| `HarmfulRestart.NotBenign` | shuttermint/keyper/keyper.go:262-326 | that restart is one the theorems exclude |
| `Chunking.ViewReadOffChain` | shuttermint/keyper/decide.go:102-235 | commitments and accusations of a DKG, read off the chain without reference to steps |
| `Chunking.ValuesReadOffChain` | shuttermint/keyper/decide.go:102-235 | values and apologies of a DKG, read off the chain without reference to steps |
| `Agreement.FinishedAgree` | shuttermint/keyper/decide.go:554-597 | keypers of one eon that have finished, after any runs whose restarts find nothing missing, hold the same commitments, accusations and apologies |
| `Agreement.KeypersAgree` | shuttermint/keyper/decide.go:524-597 | any two keypers whose DKG succeeds, after any runs whose restarts do no harm and under any dealers, have results for the same eon and for themselves, with the same public key and shares, and secret shares on one polynomial |
| `Agreement.ChainToMessage` | shuttermint/keyper/decide.go:524-649 | what is encrypted to one keyper's public key is decrypted by the epoch key any other keyper of the eon holds |
| `HonestKeypers.HonestNeverFoundCorrupt` | shuttermint/keyper/decide.go:489-582 | a keyper that deals and apologizes as a step does, and whose messages reach the chain in their phase, is found corrupt by no keyper after any run whose restarts do no harm |
| `HonestKeypers.NothingHidden` | shuttermint/keyper/decide.go:489-582 | a keyper that accuses as a step does is deceived by no dealer: what is wrong with a dealer shows in public |
| `HonestKeypers.EnoughHonestKeypers` | shuttermint/keyper/decide.go:489-582 | if at least threshold many keypers are honest, the DKG succeeds for each of them, whatever the others send |
| `HonestKeypers.TooFewDealersFail` | shuttermint/keyper/puredkg/puredkg.go:245-298 | if fewer than threshold many keypers publish a commitment that counts, the DKG succeeds for no keyper, after any run whose restarts do no harm |
| `HonestDecryption.HonestKeypersDecrypt` | shuttermint/keyper/decide.go:599-649 | once all honest keypers, at least threshold many, have published their shares of an epoch, every keyper whose DKG has succeeded holds its key, whatever else it received and in whatever order, and the key decrypts what was encrypted to any honest keyper's public key |
| `Actions.PendingActions.AddActions` | shuttermint/keyper/fx/pending.go:59-80 | takes over exactly the actions not taken over before, under consecutive numbers |
| `Actions.PendingActions.RemoveAction` | shuttermint/keyper/fx/pending.go:98-105 | removes one action and its transaction hash |
| `Actions.PendingActions.SortedIDs` | shuttermint/keyper/fx/pending.go:45-56 | all pending numbers in strictly increasing order |
| `Actions.NeverPanics` | shuttermint/keyper/fx/pending.go:59-64 | the panic on a wrong id and the one on left-over actions are unreachable |
| `Actions.StepKeepsInv` | shuttermint/keyper/keyper.go:209-350 | deciding, saving, running, removing, crashing and restarting keep memory and both files in step |
| `Actions.ExactlyOnce` | shuttermint/keyper/keyper.go:209-350 | however a run is interrupted, each saved action enters the action map once under its position in the sequence of all decisions, and nothing is scheduled twice between starts |
| `Execution.EndBlockIs` | shuttermint/contract/config.go:38-50 | the end block is the contract's closing block, wrapped around at 2^64 |
| `Execution.BoundariesAgree` | shuttermint/contract/config.go:38-50 | end and timeout are right if and only if the closing block plus the timeout fits uint64, which is exactly when the contract returns them, and then they are the contract's |
| `Execution.BoundariesMayDiffer` | shuttermint/contract/config.go:38-50 | a config for which the contract reverts while the keyper takes block 5 for the timeout |
| `Execution.BatchIndexInverts` | shuttermint/contract/config.go:55-63 | a block's batch index is i if and only if the block lies between the start and end block of batch i, while both fit uint64 |
| `Execution.ExecutionDelay` | shuttermint/keyper/decide.go:1104-1124 | the delay is at most half the execution timeout, for every number of keypers and configured staggering |
| `Execution.PlacesDistinctExactly` | shuttermint/keyper/decide.go:1120-1121 | distinct keypers get distinct places if and only if the sum of half step and index stays within uint64 or the number of keypers divides 2^64 |
| `Execution.StaggeringIs` | shuttermint/keyper/decide.go:1104-1124 | the staggering is the configured one, or the largest for which the last keyper still waits no longer than half the timeout |
| `Execution.DelaysApart` | shuttermint/keyper/decide.go:1104-1124 | two keypers hold back at least one staggering apart, where places are distinct |
| `Execution.SendsInTime` | shuttermint/keyper/decide.go:937-973 | wherever the contract can compute the batch's blocks, a keyper sends only what its block checks let pass at that block: execution between closing and timeout, skipping from the timeout on |
| `Execution.WindowIsLarge` | shuttermint/keyper/decide.go:937-973 | a keyper executes a cipher batch if and only if it is one of the batch's keypers, is ready, and its delay is over but not the timeout; that leaves at least the second half of a positive timeout |
| `Execution.SkipsAndPlains` | shuttermint/keyper/decide.go:937-973 | a keyper skips exactly from its delay after the timeout on, and executes a plain batch exactly from its delay after the closing block on if it is one of the batch's keypers |
| `Execution.DueExactly` | shuttermint/keyper/decide.go:881-893 | due are the next ten half steps at most, of batches before the current one |
| `Execution.OnlyClosedBatches` | shuttermint/keyper/decide.go:848-893 | half steps decided on are of batches that have closed, whichever config they belong to, if start blocks increase along the configs |
| `Execution.ExecutionState.MaybeExecuteBatch` | shuttermint/keyper/decide.go:848-879 | the due half steps in order, up to the first that is not due, and the half step left pending |
| `Execution.ExecutionState.Start` | shuttermint/keyper/keyper.go:214-217 | the pending half step after loading: forgotten if it is 0, or if no transaction is under way and no action was saved |
| `Execution.NeverSentTwice` | shuttermint/keyper/decide.go:848-879 | over any run with restarts in which the contract's counter does not go back, no half step is sent twice, and half steps strictly increase, if and only if after a restart that has forgotten one nothing is sent before the counter has passed it |
| `Execution.RestartSendsTwice` | shuttermint/keyper/keyper.go:214-217 | a run that forgets the pending half step on restarting and sends it again |
| `Delivery.AcceptedExactly` | contracts/contracts/ExecutorContract.sol:59-233 | in any reachable state of the contracts, the transaction that a keyper decides on for the next half step is accepted if and only if the batch's blocks fit 64 bits and, for a cipher batch, something could be decrypted exactly if something was submitted |
| `Delivery.DecisionAcceptedExactly` | shuttermint/keyper/decide.go:848-973 | all transactions of one decision, carried out in order, are accepted if and only if each of them meets that condition |
| `Delivery.NothingDecrypted` | contracts/contracts/ExecutorContract.sol:111-129 | a batch with submissions of which none can be decrypted: the execution reverts |
| `Voting.OutcomeIndex` | shuttermint/app/voting.go:20-32 | both map loops, in any order: some index with enough votes, or none if there is none |
| `Voting.AddConfigVote` | shuttermint/app/configvoting.go:20-36 | a second vote of a sender is refused; otherwise the vote goes to the equal candidate or a new one |
| `Voting.AddEonStartVote` | shuttermint/app/eonvoting.go:15-25 | the vote replaces an earlier one |
| `Voting.OutcomeDetermined` | shuttermint/app/voting.go:20-32 | if no candidate had its threshold before a vote, the outcome after it does not depend on map order and can only be the candidate voted for |
| `ShielderApps.ShielderApp.FindConfig` | shuttermint/app/app.go:113-120 | the config for a batch; the panic on a missing guard is unreachable |
| `ShielderApps.ShielderApp.DeliverBatchConfig` | shuttermint/app/app.go:330-384 | a vote counts only for a valid config by a keyper that has not voted; the winner is the config just voted for, and a DKG starts if keypers or threshold changed |
| `ShielderApps.ShielderApp.DeliverEonStartVote` | shuttermint/app/app.go:457-506 | the winner is the batch index just voted for although votes can be changed; it starts the next eon |
| `ShielderApps.ShielderApp.DeliverCheckIn` | shuttermint/app/app.go:397-429 | registers a keyper's validator key once, and announces its encryption key |
| `ShielderApps.ShielderApp.DeliverBatchConfigStarted` | shuttermint/app/app.go:431-455 | counts votes of the previous config's keypers to start the last config |
| `ShielderApps.ShielderApp.EndBlock` | shuttermint/app/app.go:762-793 | the new validators, and their difference to the old ones as a key-sorted list, or nothing in dev mode |
| `ShielderApps.DeliverKeepsInv` | shuttermint/app/app.go:330-506 | after every delivery no candidate holds its threshold, polls belong to configs with increasing indices, and eons are numbered from 1 |
| `ShielderApps.NewConfigKeepsInv` | shuttermint/app/app.go:123-153 | a config that passed the check on delivery can be added |
| `ShielderApps.ValidatorsFollow` | shuttermint/app/app.go:741-748 | the validators are those of the last config that has taken over, or unchanged |
| `Quorums.OutsidersChangeNothing` | shuttermint/app/app.go:330-506 | whoever is keyper of no config changes nothing |
| `Quorums.KeysStay` | shuttermint/app/app.go:397-429 | validator keys are registered by keypers for themselves, and never changed |
| `Quorums.ConfigsHaveQuorum` | shuttermint/app/app.go:330-384 | in every run, whenever a config is added, at least threshold many keypers of the config before it have sent a vote for exactly this one |
| `Quorums.EonsHaveQuorum` | shuttermint/app/app.go:457-506 | in every run, whenever a vote starts an eon, at least threshold many keypers of the batch's config have sent a vote for this batch |
| `Quorums.ThresholdsInRange` | shuttermint/keyper/shutterevents/batchconfig.go:28-40 | in every run every config has keypers, and a positive threshold of at most their number, or of 2^63 or more |
| `Quorums.ConfigsHaveEons` | shuttermint/app/app.go:698-715 | a new config starts an eon if and only if the latest one is not for its keypers and threshold, and afterwards the latest one is |
| `Quorums.EonsMatchBatches` | shuttermint/app/app.go:366-506 | whenever an eon is announced its DKG is that of the config to which the announced batch belongs, and earlier DKGs stay |
| `Quorums.OneVoteDecides` | shuttermint/app/app.go:368-371 | a single vote decides a fresh poll if and only if the threshold is at most 1 or at least 2^63 |
| `StuckVotes.NextConfigExactly` | shuttermint/app/configvoting.go:20-36 | some continuation of a run adds a config if and only if, for some config that may follow, those that have voted for it and those that have not voted yet are enough |
| `StuckVotes.SplitVote` | shuttermint/app/configvoting.go:20-36 | two keypers that must agree vote for different configs, and from then on no run adds a config |
| `StartVotes.StartsExactly` | shuttermint/app/app.go:762-772 | a block starts the last config if and only if there are as many votes as the threshold of the config before it |
| `StartVotes.TakesOverExactly` | shuttermint/app/app.go:774-776 | the last config takes over the validators if and only if it is started and at least threshold many positions of its keyper list have checked in |
| `StartVotes.StartsHaveQuorum` | shuttermint/app/app.go:431-455 | in every run in which no config comes in while votes on a start are pending, a block starts the last config only if threshold many keypers of the one before it have sent a vote for that |
| `StartVotes.LeftOverVotes` | shuttermint/app/app.go:431-455 | starting takes threshold many votes of keypers for it if and only if no vote is left over from another config, or those left over could not be filled up anyway |
| `StartVotes.StartedWithoutVotes` | shuttermint/app/app.go:762-772 | a run from genesis in which a config is started without any vote for it |
| `DkgInstances.EnsureUniqueAddresses` | shuttermint/medley/medley.go:78-87 | accepts exactly the lists without repetition |
| `DkgInstances.DKGInstance.RegisterPolyEvalMsg` | shuttermint/app/dkg.go:23-54 | no error exactly for a well-formed message none of whose pairs of sender and receiver was seen; then all its pairs are |
| `DkgInstances.DKGInstance.RegisterPolyCommitmentMsg` | shuttermint/app/dkg.go:57-74 | no error exactly for a well-formed message of a sender not seen before |
| `DkgInstances.DKGInstance.RegisterAccusationMsg` | shuttermint/app/dkg.go:77-102 | no error exactly for a well-formed message of a sender not seen before |
| `DkgInstances.DKGInstance.RegisterApologyMsg` | shuttermint/app/dkg.go:105-130 | no error exactly for a well-formed message of a sender not seen before |
| `DkgInstances.TakenExactly` | shuttermint/app/dkg.go:23-130 | for any sequence of messages, one is taken if and only if it is well formed and says nothing to anybody that a message of its kind and sender taken before has said |
| `AppRuns.RunNumbersEons` | shuttermint/app/app.go:491-715 | in every run started eons are numbered 1, 2, 3, ..., and DKG messages are emitted only for started eons |
| `AppRuns.TendermintAgrees` | shuttermint/app/app.go:741-793 | outside dev mode, folding the updates of all blocks over a positive genesis gives the app's validators in every run |
| `AppRuns.UpdatesDetermined` | shuttermint/app/app.go:762-793 | the update lists of a run do not depend on map order |
| `Validators.ValidatorUpdates` | shuttermint/app/powermap.go:61-71 | one entry per key, strictly sorted by key |
| `Validators.ComputeDiff` | shuttermint/app/powermap.go:39-58 | removed keys with power 0, changed ones with their new power, a missing key counting as 0 |
| `Validators.SortedListUnique` | shuttermint/app/powermap.go:31-71 | the sorted list is determined by the map |
| `Validators.UpdatesRefineExactly` | shuttermint/app/powermap.go:39-71 | applying the updates gives the new set if and only if it has no key of power 0 that the old set lacks |
| `Validators.GenesisAgrees` | shuttermint/app/powermap.go:13-28 | for distinct keys and positive powers the genesis powermap is the set Tendermint starts from |
| `Validators.PowerConserved` | shuttermint/app/app.go:727-738 | ten per keyper in total, registered or not, and no key without power |
| `Validators.PowersAre` | shuttermint/app/app.go:727-738 | each key has ten for every position of the keyper list registered under it, the placeholder also ten for every position that is not registered, and no other key occurs |
| `Eons.FindEonBinary` | shuttermint/keyper/observe/shutter.go:243-267 | on increasing eons the binary search finds what a linear one would |
| `Eons.Shielder.ApplyOne` | shuttermint/keyper/observe/shutter.go:269-328 | appends a later eon, a message of a known eon or a config, or stores an encryption key; errors leave all alone |
| `Eons.ObserverAgrees` | shuttermint/keyper/observe/shutter.go:285-366 | on a well-numbered log no event is an error and no message is lost |
| `Eons.ProducerObserverAgree` | shuttermint/keyper/observe/shutter.go:243-366 | for every app run an observer from genesis has exactly the eons 1, 2, 3, ..., with all their messages sorted by height |
| `Logs.LogTellsAll` | shuttermint/app/app.go:330-643 | in every run the log announces each config after the first once and in order, the encryption keys of exactly those that have checked in, and exactly the DKG messages posted for started eons |

## Left out

- Curve and pairing internals, ECDSA, ECIES and keccak: foreign code, see the conventions above.
- Tendermint and Ethereum RPC, subscriptions, reconnecting, goroutine workers and the retry loop of actions: input and output.
- Target-contract calls: they are assumed to return without touching the executor's state.
- Fee bank, deposits, slashing, key broadcast, ownership transfer, nonces and CheckTx: short guard-and-set lifecycles.
- Signatures on decrypted batches, accusations and appeals against an executor, and the lookup of a batch config in the observer: the keyper list of an eon is a parameter.
- The number of a chosen batch in `publishEpochSecretKeyShares` and the bookkeeping of decrypted batches in the keyper's state.
- Several eons at once: each eon's DKG is fed on its own, and the run theorems are about one eon.
- The app's delivery takes from its DKG instance whether a message is registered; the instance is modelled on its own (`DkgInstances.TakenExactly`), and deliveries are proved for every such decision.
- What commitments reveal about a secret: `Secrecy.SharesKeepSecret` is about shares alone.
- That only the owner sets the minimal fee: in the model anybody may, which allows more runs.
- Epoch key shares in the app are published without a check, so they can name an unknown eon; they are not among the observer's events here.
- The encryption of evaluations: `Outboxes.Outbox.SendPolyEvals` says which messages go out, in plain.
- Receivers and encrypted evaluations of a message, accusers and evaluations of an apology are lists of pairs; lists of different lengths are rejected before they reach the chain.
- The pages in which events are fetched, and the bytes of the gob format: loading is modelled by what it changes in a DKG and in the pending half step.
- Error texts are not compared, only whether a call fails.
- Polls and DKG instances are values in the app's maps instead of objects behind pointers; nothing else refers to them.
- Sorting updates and pending numbers in place is modelled on values, by inserting each entry where it belongs.
- DistributedKeyGeneration.PureDKG.StartPhase3Apologizing: the order of the apologies follows a map and is not specified.
- Validators.ComputeDiff: powers are unbounded integers, because a power is ten for each keyper of a config.
- Execution.SendsInTime: about batches whose blocks the contract can compute; for others every call reverts.
- Execution.WindowIsLarge: the same condition as for `Execution.SendsInTime`.
- Execution.NeverSentTwice: about runs in which the observed counter of half steps does not go back.
- DkgRuns.ChunkingIndependence: about runs whose restarts find every commitment and value present; `HarmlessRestarts.ObjectRestoredExactly` shows that this is needed. `Agreement.KeypersAgree` needs less, because it is about outcomes.
- HarmlessRestarts.RestartHarmlessExactly: about a keyper that can still succeed on some chain and to which every value can be encrypted; for one that cannot succeed there is no result to lose, and `Restarts.AlikeOutcome` covers both.
- Delivery.DecisionAcceptedExactly: what the keyper has decrypted is a parameter, and nothing happens on the chain between its calls; `MainChain.ExecutorSafety` covers what others may do.
- HonestDecryption.HonestKeypersDecrypt: that a keyper publishes its share is a hypothesis; the source omits it for batches past their timeout, and once the key is known.
- HonestKeypers.EnoughHonestKeypers: that messages reach the chain in their phase, and the app takes one message of a kind from each keyper, are hypotheses; neither is up to the keyper.
- AppRuns.TendermintAgrees: not for dev mode, in which no updates are returned.
