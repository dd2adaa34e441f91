/** When a keyper sends which execution half step: the staggering of keypers, the
    boundaries it computes for a batch, and the half steps it has under way.

    Go's uint64 arithmetic wraps around, where the contracts' reverts. */
module Execution {
  import opened Outcome
  import opened Addresses
  import opened Widths
  import opened Configs

  const MAX_PARALLEL_HALF_STEPS: int := 10

  /** A result of Go's arithmetic on uint64. */
  function Wrap(x: int): uint64 {
    x % TWO_64
  }

  // ----- boundaries

  /** Panics on batches before the config, so callers must avoid them. */
  function BatchStartBlock(c: BatchConfig, batchIndex: uint64): uint64
    requires batchIndex >= c.startBatchIndex
  {
    Wrap(c.startBlockNumber + Wrap((batchIndex - c.startBatchIndex) * c.batchSpan))
  }

  function BatchEndBlock(c: BatchConfig, batchIndex: uint64): uint64
    requires batchIndex >= c.startBatchIndex
  {
    Wrap(BatchStartBlock(c, batchIndex) + c.batchSpan)
  }

  /** The batch whose span holds the block. Panics on blocks before the config. */
  function BatchIndexAt(c: BatchConfig, block: uint64): uint64
    requires block >= c.startBlockNumber
  {
    if c.batchSpan == 0 then c.startBatchIndex
    else Wrap(c.startBatchIndex + (block - c.startBlockNumber) / c.batchSpan)
  }

  lemma WrapTwice(a: int, p: int)
    ensures Wrap(a + Wrap(p)) == Wrap(a + p)
  {
  }

  lemma WrapSmall(x: int)
    ensures Wrap(x) == x <==> 0 <= x < TWO_64
  {
  }

  lemma NextMultiple(k: int, d: int)
    ensures (k + 1) * d == k * d + d
  {
  }

  lemma ClosingBlockIs(c: BatchConfig, batchIndex: int, p: int)
    requires p == (batchIndex - c.startBatchIndex) * c.batchSpan
    ensures ClosingBlock(c, batchIndex) == c.startBlockNumber + (p + c.batchSpan)
  {
    NextMultiple(batchIndex - c.startBatchIndex, c.batchSpan);
  }

  lemma WrapThrice(a: int, p: int, d: int)
    ensures Wrap(Wrap(a + Wrap(p)) + d) == Wrap(a + (p + d))
  {
    WrapTwice(a, p);
    WrapTwice(d, a + p);
  }

  /** The keyper's end block is the contract's closing block, wrapped around. */
  lemma EndBlockIs(c: BatchConfig, batchIndex: uint64)
    requires batchIndex >= c.startBatchIndex
    ensures BatchEndBlock(c, batchIndex) == Wrap(ClosingBlock(c, batchIndex))
  {
    var p := (batchIndex - c.startBatchIndex) * c.batchSpan;
    ClosingBlockIs(c, batchIndex, p);
    WrapThrice(c.startBlockNumber, p, c.batchSpan);
  }

  function BatchTimeoutBlock(c: BatchConfig, batchIndex: uint64): uint64
    requires batchIndex >= c.startBatchIndex
  {
    Wrap(BatchEndBlock(c, batchIndex) + c.executionTimeout)
  }

  lemma WrappedOnce(end: int, timeout: uint64)
    requires end >= 0
    ensures Wrap(end) == end && Wrap(Wrap(end) + timeout) == end + timeout <==> end + timeout < TWO_64
  {
    WrapSmall(end);
    WrapSmall(end + timeout);
  }

  /** The keyper's end and timeout blocks are right exactly if the true ones fit uint64,
      which is also when the contract can compute them; then it returns the same. */
  lemma BoundariesAgree(c: BatchConfig, batchIndex: uint64)
    requires c.Active() && batchIndex >= c.startBatchIndex
    ensures var r, end, timeout := BatchBoundaryBlocks(c, batchIndex), BatchEndBlock(c, batchIndex), BatchTimeoutBlock(c, batchIndex);
      && (r.Returned? <==> ClosingBlock(c, batchIndex) + c.executionTimeout < TWO_64)
      && (r.Returned? ==> r.value.1 == end && r.value.2 == timeout)
      && ((end == ClosingBlock(c, batchIndex) && timeout == ClosingBlock(c, batchIndex) + c.executionTimeout)
          <==> ClosingBlock(c, batchIndex) + c.executionTimeout < TWO_64)
  {
    BoundariesMean(c, batchIndex);
    EndBlockIs(c, batchIndex);
    PositiveEnd(c, batchIndex);
    WrappedOnce(ClosingBlock(c, batchIndex), c.executionTimeout);
  }

  /** A config whose first batch times out beyond uint64: the contract reverts, while for
      the keyper the batch has timed out at block 5 already. */
  lemma BoundariesMayDiffer(keypers: seq<Address>)
    ensures var c := ZERO_CONFIG.(startBlockNumber := TWO_64 - 10, batchSpan := 5, executionTimeout := 10, keypers := keypers);
      && BatchBoundaryBlocks(c, 0) == Reverted("overflow")
      && BatchEndBlock(c, 0) == TWO_64 - 5 && BatchTimeoutBlock(c, 0) == 5
  {
  }

  lemma MulMono(a: int, b: int, d: int)
    requires a <= b && d >= 0
    ensures a * d <= b * d
  {
    assert b * d - a * d == (b - a) * d;
  }

  lemma QuotientNonnegative(x: int, d: int)
    requires x >= 0 && d > 0
    ensures x / d >= 0
  {
  }

  lemma QuotientIs(x: int, d: int, r: int)
    requires d > 0
    ensures x / d == r <==> r * d <= x < (r + 1) * d
  {
    var k := x / d;
    assert k * d <= x < (k + 1) * d;
    if k < r {
      MulMono(k + 1, r, d);
    } else if k > r {
      MulMono(r + 1, k, d);
    }
  }

  /** The index lookup inverts the boundaries: a block belongs to the batch from whose
      start block to whose end block it lies. */
  lemma BatchIndexInverts(c: BatchConfig, block: uint64, batchIndex: uint64)
    requires c.Active() && block >= c.startBlockNumber && batchIndex >= c.startBatchIndex
    requires ClosingBlock(c, batchIndex) < TWO_64
    requires c.startBatchIndex + (block - c.startBlockNumber) / c.batchSpan < TWO_64
    ensures BatchIndexAt(c, block) == batchIndex
      <==> BatchStartBlock(c, batchIndex) <= block < BatchEndBlock(c, batchIndex)
  {
    StartAndEnd(c, batchIndex);
    UnwrappedIndex(c, block);
    QuotientIs(block - c.startBlockNumber, c.batchSpan, batchIndex - c.startBatchIndex);
  }

  lemma UnwrappedIndex(c: BatchConfig, block: uint64)
    requires c.Active() && block >= c.startBlockNumber
    requires c.startBatchIndex + (block - c.startBlockNumber) / c.batchSpan < TWO_64
    ensures BatchIndexAt(c, block) == c.startBatchIndex + (block - c.startBlockNumber) / c.batchSpan
  {
    QuotientNonnegative(block - c.startBlockNumber, c.batchSpan);
    WrapSmall(c.startBatchIndex + (block - c.startBlockNumber) / c.batchSpan);
  }

  /** Without overflow the start and end blocks are multiples of the span apart from
      the config's start. */
  lemma StartAndEnd(c: BatchConfig, batchIndex: uint64)
    requires batchIndex >= c.startBatchIndex && ClosingBlock(c, batchIndex) < TWO_64
    ensures BatchStartBlock(c, batchIndex) == c.startBlockNumber + (batchIndex - c.startBatchIndex) * c.batchSpan
    ensures BatchEndBlock(c, batchIndex) == c.startBlockNumber + (batchIndex - c.startBatchIndex + 1) * c.batchSpan
  {
    var rel := batchIndex - c.startBatchIndex;
    var p := rel * c.batchSpan;
    assert (rel + 1) * c.batchSpan == p + c.batchSpan;
    MulMono(0, rel, c.batchSpan);
    WrapTwice(c.startBlockNumber, p);
    WrapSmall(c.startBlockNumber + p);
    WrapSmall(c.startBlockNumber + p + c.batchSpan);
  }

  // ----- staggering

  lemma QuotientFits(x: int, d: int)
    requires x >= 0 && d > 0
    ensures 0 <= x / d && (x / d) * d <= x
  {
  }

  function Staggering(n: int, timeout: uint64, configured: uint64): (s: int)
    requires n >= 1
    ensures 0 <= s && (n > 1 ==> s * (2 * (n - 1)) <= timeout)
  {
    if n == 1 then
      0
    else
      var span := 2 * (n - 1);
      var maxStaggering := timeout / span;
      QuotientFits(timeout, span);
      MulMono(if configured >= maxStaggering then maxStaggering else configured, maxStaggering, span);
      if configured >= maxStaggering then maxStaggering else configured
  }

  /** The staggering is the configured one, or else the largest for which the last keyper
      still waits no longer than half the timeout. */
  lemma StaggeringIs(n: int, timeout: uint64, configured: uint64)
    requires n > 1
    ensures var s := Staggering(n, timeout, configured);
      && s <= configured && (n - 1) * s * 2 <= timeout
      && (s == configured || (n - 1) * (s + 1) * 2 > timeout)
  {
    var s, span := Staggering(n, timeout, configured), 2 * (n - 1);
    QuotientIs(timeout, span, timeout / span);
    assert (n - 1) * s * 2 == s * span && (n - 1) * (s + 1) * 2 == (s + 1) * span;
  }

  /** The rank of a keyper in the order in which the keypers try a half step. */
  function Place(halfStep: uint64, keyperIndex: int, n: int): (p: int)
    requires n >= 1
    ensures 0 <= p < n
  {
    Wrap(halfStep + keyperIndex) % n
  }

  lemma DelayFits(place: int, n: int, timeout: int, s: int)
    requires 0 <= place < n && timeout >= 0
    requires 0 <= s && (n > 1 ==> s * (2 * (n - 1)) <= timeout)
    ensures 0 <= place * s && 2 * (place * s) <= timeout
  {
    MulMono(0, place, s);
    if n == 1 {
      assert place == 0;
    } else {
      MulMono(place, n - 1, s);
      assert s * (2 * (n - 1)) == 2 * ((n - 1) * s);
    }
  }

  /** How long a keyper holds back; the index of an address that is not a keyper counts
      as zero. The delay is at most half the execution timeout, so it does not
      overflow. */
  function ExecutionDelay(c: BatchConfig, configured: uint64, self: Address, halfStep: uint64): (delay: int)
    requires |c.keypers| >= 1
    ensures 0 <= delay <= c.executionTimeout / 2
  {
    var index := FindAddressIndex(c.keypers, self);
    var place := Place(halfStep, if index.Some? then index.value else 0, |c.keypers|);
    var staggering := Staggering(|c.keypers|, c.executionTimeout, configured);
    DelayFits(place, |c.keypers|, c.executionTimeout, staggering);
    place * staggering
  }

  ghost predicate PlacesDistinct(halfStep: uint64, n: int)
    requires n >= 1
  {
    forall i, j :: 0 <= i < j < n ==> Place(halfStep, i, n) != Place(halfStep, j, n)
  }

  lemma RemainderIs(x: int, n: int, q: int, r: int)
    requires n >= 1 && x == q * n + r && 0 <= r < n
    ensures x % n == r
  {
    QuotientIs(x, n, q);
    assert (q + 1) * n == q * n + n;
    assert x == n * (x / n) + x % n;
    assert n * q == q * n;
  }

  lemma DifferentRemainders(x: int, y: int, n: int)
    requires n >= 1 && x < y < x + n
    ensures x % n != y % n
  {
    var a, b := x / n, y / n;
    assert x == a * n + x % n && y == b * n + y % n;
    if b <= a {
      MulMono(b, a, n);
    } else {
      MulMono(a + 1, b, n);
    }
  }

  lemma SumTimes(a: int, b: int, n: int)
    ensures (a + b) * n == a * n + b * n
  {
  }

  /** Taking away a multiple of n keeps the remainder. */
  lemma SameRemainder(x: int, m: int, n: int, k: int)
    requires n >= 1 && m == k * n
    ensures (x - m) % n == x % n
  {
    Division(x - m, n);
    SumTimes((x - m) / n, k, n);
    RemainderIs(x, n, (x - m) / n + k, (x - m) % n);
  }

  lemma WrapOnce(x: int)
    requires TWO_64 <= x < 2 * TWO_64
    ensures Wrap(x) == x - TWO_64
  {
  }

  lemma WrapKeepsRemainder(x: int, n: int)
    requires n >= 1 && TWO_64 % n == 0 && 0 <= x < 2 * TWO_64
    ensures Wrap(x) % n == x % n
  {
    if x >= TWO_64 {
      Division(TWO_64, n);
      SameRemainder(x, TWO_64, n, TWO_64 / n);
      WrapOnce(x);
    } else {
      WrapSmall(x);
    }
  }

  lemma PlaceIs(halfStep: uint64, i: int, n: int)
    requires 0 <= i < n <= TWO_64 && (halfStep + n <= TWO_64 || TWO_64 % n == 0)
    ensures Place(halfStep, i, n) == (halfStep + i) % n
  {
    if TWO_64 % n == 0 {
      WrapKeepsRemainder(halfStep + i, n);
    } else {
      WrapSmall(halfStep + i);
    }
  }

  lemma PlaceFrom(halfStep: uint64, i: int, n: int, x: int, k: int, r: int)
    requires n >= 1 && Wrap(halfStep + i) == x && x == k * n + r && 0 <= r < n
    ensures Place(halfStep, i, n) == r
  {
    RemainderIs(x, n, k, r);
  }

  lemma Division(x: int, n: int)
    requires n >= 1
    ensures x == (x / n) * n + x % n && 0 <= x % n < n
  {
    assert (x / n) * n == n * (x / n);
  }

  /** Where the sum wraps in the middle of the keypers and the number of keypers does
      not divide 2^64, two of them get the same place. */
  lemma WrapClashes(halfStep: uint64, n: int) returns (i: int, j: int)
    requires 1 <= n <= TWO_64 && halfStep + n > TWO_64 && TWO_64 % n != 0
    ensures 0 <= i < j < n && Place(halfStep, i, n) == Place(halfStep, j, n)
  {
    var k, r, w := TWO_64 / n, TWO_64 % n, TWO_64 - halfStep;
    Division(TWO_64, n);
    assert 0 * n == 0;
    if r >= w {
      i, j := 0, r;
      PlaceFrom(halfStep, i, n, halfStep, k, r - w);
      PlaceFrom(halfStep, j, n, r - w, 0, r - w);
    } else {
      i, j := w - r, w;
      PlaceFrom(halfStep, i, n, halfStep + i, k, 0);
      PlaceFrom(halfStep, j, n, 0, 0, 0);
    }
  }

  lemma TwoPlaces(halfStep: uint64, i: int, j: int, n: int)
    requires 0 <= i < j < n <= TWO_64 && (halfStep + n <= TWO_64 || TWO_64 % n == 0)
    ensures Place(halfStep, i, n) != Place(halfStep, j, n)
  {
    PlaceIs(halfStep, i, n);
    PlaceIs(halfStep, j, n);
    DifferentRemainders(halfStep + i, halfStep + j, n);
  }

  /** Distinct keypers get distinct places for a half step exactly if the sum of half
      step and index cannot wrap around, or wraps without harm. */
  lemma PlacesDistinctExactly(halfStep: uint64, n: int)
    requires 1 <= n <= TWO_64
    ensures PlacesDistinct(halfStep, n) <==> halfStep + n <= TWO_64 || TWO_64 % n == 0
  {
    if halfStep + n <= TWO_64 || TWO_64 % n == 0 {
      forall i, j | 0 <= i < j < n
        ensures Place(halfStep, i, n) != Place(halfStep, j, n)
      {
        TwoPlaces(halfStep, i, j, n);
      }
    } else {
      var i, j := WrapClashes(halfStep, n);
    }
  }

  lemma ProductsApart(p: int, p': int, s: int)
    requires p < p' && s >= 0
    ensures p' * s - p * s >= s
  {
    MulMono(p + 1, p', s);
    assert (p + 1) * s == p * s + s;
  }

  /** Different keypers hold back at least one staggering apart, where their places are
      distinct. */
  lemma DelaysApart(c: BatchConfig, configured: uint64, a: Address, b: Address, halfStep: uint64)
    requires a in c.keypers && b in c.keypers && a != b && |c.keypers| <= TWO_64
    requires halfStep + |c.keypers| <= TWO_64 || TWO_64 % |c.keypers| == 0
    ensures var s, x, y := Staggering(|c.keypers|, c.executionTimeout, configured),
                           ExecutionDelay(c, configured, a, halfStep), ExecutionDelay(c, configured, b, halfStep);
      x - y >= s || y - x >= s
  {
    var n, s := |c.keypers|, Staggering(|c.keypers|, c.executionTimeout, configured);
    var i, j := FindAddressIndex(c.keypers, a).value, FindAddressIndex(c.keypers, b).value;
    var p, p' := Place(halfStep, i, n), Place(halfStep, j, n);
    if i < j { TwoPlaces(halfStep, i, j, n); } else { TwoPlaces(halfStep, j, i, n); }
    if p < p' { ProductsApart(p, p', s); } else { ProductsApart(p', p, s); }
  }

  // ----- one half step

  datatype Action = ExecuteCipher(batchIndex: uint64) | ExecutePlain(batchIndex: uint64) | SkipCipher(batchIndex: uint64)

  /** What a keyper sees of the main chain and knows of a batch: `ready` says whether
      it has the batch's data and, where needed, enough signatures. */
  datatype Keyper = Keyper(self: Address, staggering: uint64, ready: uint64 -> bool)

  /** The decision, given the batch's end and timeout blocks and the delay. */
  function ActionAt(end: uint64, timeoutBlock: uint64, delay: int, block: uint64, halfStep: uint64,
                    isKeyper: bool, ready: bool): Option<Action>
  {
    if halfStep % 2 == 0 && block >= timeoutBlock then
      if block >= Wrap(timeoutBlock + delay) then Some(SkipCipher(halfStep / 2)) else None
    else if !isKeyper then None
    else if block >= Wrap(end + delay) then
      if halfStep % 2 == 0 then if ready then Some(ExecuteCipher(halfStep / 2)) else None
      else Some(ExecutePlain(halfStep / 2))
    else None
  }

  /** Active configs have keypers: computing a delay among none divides by zero. */
  type ConfigList = cs: seq<BatchConfig> | WithKeypers(cs) witness []

  predicate WithKeypers(cs: seq<BatchConfig>) {
    forall i :: 0 <= i < |cs| && cs[i].Active() ==> |cs[i].keypers| >= 1
  }

  function MaybeExecuteHalfStep(k: Keyper, configs: ConfigList, block: uint64, halfStep: uint64): Option<Action> {
    var batchIndex := halfStep / 2;
    var index := ConfigIndex(configs, batchIndex);
    if !index.Returned? || !configs[index.value].Active() then None
    else
      var c := configs[index.value];
      ActionAt(BatchEndBlock(c, batchIndex), BatchTimeoutBlock(c, batchIndex), ExecutionDelay(c, k.staggering, k.self, halfStep),
               block, halfStep, k.self in c.keypers, k.ready(batchIndex))
  }

  /** Where the timeout block fits, the decision is in time: between end and timeout, and
      after the delay, for executing; from the timeout on for skipping. */
  lemma ActionInTime(end: uint64, timeout: uint64, delay: int, block: uint64, halfStep: uint64,
                     isKeyper: bool, ready: bool)
    requires 0 <= delay <= timeout && end + timeout < TWO_64
    ensures var a := ActionAt(end, Wrap(end + timeout), delay, block, halfStep, isKeyper, ready);
      && (a == Some(ExecuteCipher(halfStep / 2)) <==>
            halfStep % 2 == 0 && end + delay <= block < end + timeout && isKeyper && ready)
      && (a == Some(SkipCipher(halfStep / 2)) <==>
            halfStep % 2 == 0 && end + timeout <= block && Wrap(end + timeout + delay) <= block)
      && (a == Some(ExecutePlain(halfStep / 2)) <==> halfStep % 2 == 1 && end + delay <= block && isKeyper)
      && (a.Some? ==> a.value.batchIndex == halfStep / 2)
  {
    WrapSmall(end + timeout);
    WrapSmall(end + delay);
  }

  /** The batch belongs to an active config, and the contract can compute its blocks. */
  ghost predicate Usable(configs: ConfigList, batchIndex: uint64, i: nat) {
    && ConfigIndex(configs, batchIndex) == Returned(i) && i < |configs| && configs[i].Active()
    && configs[i].startBatchIndex <= batchIndex
    && ClosingBlock(configs[i], batchIndex) + configs[i].executionTimeout < TWO_64
  }

  /** Wherever the contract can compute the batch's boundaries, a keyper sends only what
      the contract's block checks let pass: it executes a cipher batch between closing
      and timeout, skips it from the timeout on, and a plain batch only after closing. */
  lemma SendsInTime(k: Keyper, configs: ConfigList, block: uint64, halfStep: uint64, i: nat)
    requires Usable(configs, halfStep / 2, i)
    ensures var a, b := MaybeExecuteHalfStep(k, configs, block, halfStep), BatchBoundaryBlocks(configs[i], halfStep / 2);
      && b.Returned?
      && (a.Some? ==> a.value.batchIndex == halfStep / 2)
      && (a.Some? && a.value.ExecuteCipher? ==>
            halfStep % 2 == 0 && b.value.1 <= block < b.value.2 && k.self in configs[i].keypers)
      && (a.Some? && a.value.SkipCipher? ==> halfStep % 2 == 0 && b.value.2 <= block)
      && (a.Some? && a.value.ExecutePlain? ==> halfStep % 2 == 1 && b.value.1 <= block && k.self in configs[i].keypers)
  {
    var c := configs[i];
    BoundariesAgree(c, halfStep / 2);
    ActionInTime(BatchEndBlock(c, halfStep / 2), c.executionTimeout, ExecutionDelay(c, k.staggering, k.self, halfStep),
                 block, halfStep, k.self in c.keypers, k.ready(halfStep / 2));
  }

  lemma PositiveEnd(c: BatchConfig, batchIndex: uint64)
    requires batchIndex >= c.startBatchIndex
    ensures ClosingBlock(c, batchIndex) >= 0
    ensures ClosingBlock(c, batchIndex) < TWO_64 ==> Wrap(ClosingBlock(c, batchIndex)) == ClosingBlock(c, batchIndex)
  {
    MulMono(0, batchIndex - c.startBatchIndex + 1, c.batchSpan);
  }

  /** A keyper that is ready executes the cipher batch exactly from its delay after
      the closing block until the timeout. With a positive timeout that is at least
      the second half of the time before the batch may only be skipped, so the window
      is not empty. */
  lemma WindowIsLarge(k: Keyper, configs: ConfigList, block: uint64, halfStep: uint64, i: nat)
    requires Usable(configs, halfStep / 2, i) && halfStep % 2 == 0
    ensures var end, timeout := ClosingBlock(configs[i], halfStep / 2), configs[i].executionTimeout;
      var may := k.self in configs[i].keypers && k.ready(halfStep / 2);
      && (MaybeExecuteHalfStep(k, configs, block, halfStep) == Some(ExecuteCipher(halfStep / 2))
          <==> may && end + ExecutionDelay(configs[i], k.staggering, k.self, halfStep) <= block < end + timeout)
      && (may && end + timeout / 2 <= block < end + timeout ==>
            MaybeExecuteHalfStep(k, configs, block, halfStep) == Some(ExecuteCipher(halfStep / 2)))
      && (timeout > 0 ==> end + timeout / 2 < end + timeout)
  {
    var c := configs[i];
    EndBlockIs(c, halfStep / 2);
    PositiveEnd(c, halfStep / 2);
    ActionInTime(BatchEndBlock(c, halfStep / 2), c.executionTimeout, ExecutionDelay(c, k.staggering, k.self, halfStep),
                 block, halfStep, k.self in c.keypers, k.ready(halfStep / 2));
  }

  /** Anyone skips a cipher batch from its delay after the timeout on, and a keyper executes
      a plain batch from its delay after the closing block on. */
  lemma SkipsAndPlains(k: Keyper, configs: ConfigList, block: uint64, halfStep: uint64, i: nat)
    requires Usable(configs, halfStep / 2, i)
    ensures var c, end := configs[i], ClosingBlock(configs[i], halfStep / 2);
      var a, delay := MaybeExecuteHalfStep(k, configs, block, halfStep), ExecutionDelay(configs[i], k.staggering, k.self, halfStep);
      && (end + c.executionTimeout + delay < TWO_64 ==>
            (a == Some(SkipCipher(halfStep / 2)) <==> halfStep % 2 == 0 && end + c.executionTimeout + delay <= block))
      && (a == Some(ExecutePlain(halfStep / 2)) <==> halfStep % 2 == 1 && k.self in c.keypers && end + delay <= block)
  {
    var c := configs[i];
    EndBlockIs(c, halfStep / 2);
    PositiveEnd(c, halfStep / 2);
    var delay := ExecutionDelay(c, k.staggering, k.self, halfStep);
    ActionInTime(BatchEndBlock(c, halfStep / 2), c.executionTimeout, delay,
                 block, halfStep, k.self in c.keypers, k.ready(halfStep / 2));
    WrapSmall(ClosingBlock(c, halfStep / 2) + c.executionTimeout + delay);
  }

  // ----- the half steps of one decision

  function NumHalfStepsToExecute(nextHalfStep: uint64, batchIndex: uint64): (n: int)
    ensures 0 <= n <= MAX_PARALLEL_HALF_STEPS
    ensures n > 0 ==> nextHalfStep + n <= Wrap(batchIndex * 2)
  {
    if nextHalfStep >= Wrap(batchIndex * 2) then 0
    else
      var missing := Wrap(batchIndex * 2) - nextHalfStep;
      if missing <= MAX_PARALLEL_HALF_STEPS then missing else MAX_PARALLEL_HALF_STEPS
  }

  /** Due are the next half steps of batches before the current one, up to ten. */
  lemma DueExactly(nextHalfStep: uint64, batchIndex: uint64, h: int)
    requires 2 * batchIndex < TWO_64
    ensures nextHalfStep <= h < nextHalfStep + NumHalfStepsToExecute(nextHalfStep, batchIndex)
      <==> nextHalfStep <= h < nextHalfStep + 10 && h / 2 < batchIndex
  {
    WrapSmall(batchIndex * 2);
  }

  /** The batch comes before the one that the config has at the block. */
  ghost predicate BeforeBlock(c: BatchConfig, block: int, batchIndex: int)
    requires c.Active()
  {
    batchIndex < c.startBatchIndex + (block - c.startBlockNumber) / c.batchSpan
  }

  lemma DueBelowBlock(c: BatchConfig, block: uint64, nextHalfStep: uint64, halfStep: int)
    requires c.Active() && block >= c.startBlockNumber
    requires nextHalfStep <= halfStep < nextHalfStep + NumHalfStepsToExecute(nextHalfStep, BatchIndexAt(c, block))
    ensures BeforeBlock(c, block, halfStep / 2)
  {
    QuotientNonnegative(block - c.startBlockNumber, c.batchSpan);
    HalfStepsBelow(nextHalfStep, BatchIndexAt(c, block), halfStep);
    WrapBelow(c.startBatchIndex + (block - c.startBlockNumber) / c.batchSpan);
  }

  lemma ClosedBefore(c: BatchConfig, block: int, batchIndex: int)
    requires c.Active() && BeforeBlock(c, block, batchIndex)
    ensures ClosingBlock(c, batchIndex) <= block
  {
    ReachesMultiple(block - c.startBlockNumber, c.batchSpan, batchIndex - c.startBatchIndex + 1);
  }

  lemma WrapBelow(x: int)
    requires x >= 0
    ensures Wrap(x) <= x
  {
  }

  lemma ReachesMultiple(x: int, d: int, k: int)
    requires d > 0 && k <= x / d
    ensures k * d <= x
  {
    QuotientIs(x, d, x / d);
    MulMono(k, x / d, d);
  }

  lemma QuotientBelow(x: int, d: int, k: int)
    requires d > 0 && x < d * k
    ensures x / d < k
  {
    QuotientIs(x, d, x / d);
    if k <= x / d {
      MulMono(k, x / d, d);
    }
  }

  lemma HalfStepsBelow(nextHalfStep: uint64, batchIndex: uint64, halfStep: int)
    requires nextHalfStep <= halfStep < nextHalfStep + NumHalfStepsToExecute(nextHalfStep, batchIndex)
    ensures halfStep / 2 < batchIndex
  {
    assert Wrap(batchIndex * 2) <= batchIndex * 2;
  }

  /** The last config that has started by the block; without one the source panics. */
  function ActiveConfigIndex(configs: seq<BatchConfig>, block: uint64): (r: Option<nat>)
    ensures r.Some? ==> r.value < |configs| && configs[r.value].startBlockNumber <= block
    ensures r.Some? ==> forall j :: r.value < j < |configs| ==> configs[j].startBlockNumber > block
    ensures r.None? ==> forall j :: 0 <= j < |configs| ==> configs[j].startBlockNumber > block
  {
    if configs == [] then None
    else if configs[|configs| - 1].startBlockNumber <= block then Some(|configs| - 1)
    else ActiveConfigIndex(configs[..|configs| - 1], block)
  }

  /** The main chain as observed at one decision, and what the keyper does then for
      each half step. */
  datatype View = View(configs: ConfigList, block: uint64, nextHalfStep: uint64, keyper: Keyper)
  {
    predicate Valid() {
      ActiveConfigIndex(configs, block).Some?
    }

    function ActionFor(): uint64 -> Option<Action> {
      (h: uint64) => MaybeExecuteHalfStep(keyper, configs, block, h)
    }

    function CurrentConfig(): BatchConfig
      requires Valid()
    {
      configs[ActiveConfigIndex(configs, block).value]
    }

    function HalfStepsDue(): (n: nat)
      requires Valid()
      ensures n > 0 ==> nextHalfStep + n < TWO_64
    {
      NumHalfStepsToExecute(nextHalfStep, BatchIndexAt(CurrentConfig(), block))
    }
  }

  lemma ClosingMonotone(c: BatchConfig, batchIndex: int, later: int)
    requires batchIndex <= later
    ensures ClosingBlock(c, batchIndex) <= ClosingBlock(c, later)
  {
    MulMono(batchIndex - c.startBatchIndex + 1, later - c.startBatchIndex + 1, c.batchSpan);
  }

  /** Batches of a config that has been succeeded close no later than its successor
      starts. */
  lemma EarlierClosed(st: Configs.State, i: nat, cur: nat, block: int, batchIndex: int)
    requires Configs.Valid(st) && StartsIncrease(st) && i < cur < |st.configs| && st.configs[i].Active()
    requires st.configs[cur].startBlockNumber <= block && batchIndex < st.configs[i + 1].startBatchIndex
    ensures ClosingBlock(st.configs[i], batchIndex) <= block
  {
    BatchesTileBlocks(st, i);
    ClosingMonotone(st.configs[i], batchIndex, st.configs[i + 1].startBatchIndex - 1);
  }

  lemma BeforeNext(c: BatchConfig, next: BatchConfig, block: int, batchIndex: int)
    requires c.Active() && Seamless(c, next) && block < next.startBlockNumber && BeforeBlock(c, block, batchIndex)
    ensures batchIndex < next.startBatchIndex
  {
    QuotientBelow(block - c.startBlockNumber, c.batchSpan, next.startBatchIndex - c.startBatchIndex);
  }

  /** The current config's successor starts at a batch that is not being decided on. */
  lemma NotLater(st: Configs.State, cur: nat, i: nat, block: int, batchIndex: int)
    requires Configs.Valid(st) && cur < i < |st.configs| && st.configs[cur].Active()
    requires st.configs[cur].startBlockNumber <= block < st.configs[cur + 1].startBlockNumber
    requires BeforeBlock(st.configs[cur], block, batchIndex)
    ensures st.configs[i].startBatchIndex > batchIndex
  {
    assert Seamless(st.configs[cur], st.configs[cur + 1]);
    StartIndicesMonotone(st, cur + 1, i);
    BeforeNext(st.configs[cur], st.configs[cur + 1], block, batchIndex);
  }

  /** So a batch being decided on is not of a later config than the current one. */
  lemma NoLaterConfig(st: Configs.State, cur: nat, i: nat, block: int, batchIndex: int)
    requires Configs.Valid(st) && cur < |st.configs| && i < |st.configs| && st.configs[cur].Active()
    requires st.configs[cur].startBlockNumber <= block && BeforeBlock(st.configs[cur], block, batchIndex)
    requires cur + 1 < |st.configs| ==> block < st.configs[cur + 1].startBlockNumber
    requires st.configs[i].startBatchIndex <= batchIndex
    ensures i <= cur
  {
    if i > cur {
      NotLater(st, cur, i, block, batchIndex);
    }
  }

  lemma ClosedInConfig(st: Configs.State, cur: nat, i: nat, block: int, batchIndex: int)
    requires Configs.Valid(st) && StartsIncrease(st) && i <= cur < |st.configs| && st.configs[i].Active()
    requires st.configs[cur].Active() && st.configs[cur].startBlockNumber <= block
    requires BeforeBlock(st.configs[cur], block, batchIndex)
    requires i + 1 < |st.configs| ==> batchIndex < st.configs[i + 1].startBatchIndex
    ensures ClosingBlock(st.configs[i], batchIndex) <= block
  {
    if i < cur {
      EarlierClosed(st, i, cur, block, batchIndex);
    } else {
      ClosedBefore(st.configs[cur], block, batchIndex);
    }
  }

  /** The half steps decided on are of batches before the one that holds the block. */
  lemma DueBelow(v: View, halfStep: uint64)
    requires v.Valid() && v.CurrentConfig().Active() && v.nextHalfStep <= halfStep < v.nextHalfStep + v.HalfStepsDue()
    ensures BeforeBlock(v.CurrentConfig(), v.block, halfStep / 2)
  {
    DueBelowBlock(v.CurrentConfig(), v.block, v.nextHalfStep, halfStep);
  }

  /** What the two lookups say of the config of a batch and of the current config. */
  lemma Looked(configs: seq<BatchConfig>, block: uint64, batchIndex: uint64, cur: nat, i: nat)
    requires ActiveConfigIndex(configs, block) == Some(cur) && ConfigIndex(configs, batchIndex) == Returned(i)
    ensures cur < |configs| && configs[cur].startBlockNumber <= block
    ensures cur + 1 < |configs| ==> block < configs[cur + 1].startBlockNumber
    ensures i < |configs| && configs[i].startBatchIndex <= batchIndex
    ensures i + 1 < |configs| ==> batchIndex < configs[i + 1].startBatchIndex
  {
  }

  lemma ClosedIfBefore(st: Configs.State, block: uint64, batchIndex: uint64, cur: nat, i: nat)
    requires Configs.Valid(st) && StartsIncrease(st)
    requires ActiveConfigIndex(st.configs, block) == Some(cur) && ConfigIndex(st.configs, batchIndex) == Returned(i)
    requires st.configs[cur].Active() && st.configs[i].Active() && BeforeBlock(st.configs[cur], block, batchIndex)
    ensures ClosingBlock(st.configs[i], batchIndex) <= block
  {
    Looked(st.configs, block, batchIndex, cur, i);
    NoLaterConfig(st, cur, i, block, batchIndex);
    ClosedInConfig(st, cur, i, block, batchIndex);
  }

  /** The half steps decided on belong to batches that have closed, whichever config they
      are of, if start blocks increase along the configs. */
  lemma OnlyClosedBatches(v: View, halfStep: uint64, st: Configs.State, i: nat)
    requires v.Valid() && v.CurrentConfig().Active() && v.nextHalfStep <= halfStep < v.nextHalfStep + v.HalfStepsDue()
    requires st.configs == v.configs && Configs.Valid(st) && StartsIncrease(st)
    requires ConfigIndex(st.configs, halfStep / 2) == Returned(i) && st.configs[i].Active()
    ensures ClosingBlock(st.configs[i], halfStep / 2) <= v.block
  {
    DueBelow(v, halfStep);
    ClosedIfBefore(st, v.block, halfStep / 2, ActiveConfigIndex(v.configs, v.block).value, i);
  }

  /** The actions for consecutive half steps, up to the first that is not due. */
  function Due(actionFor: uint64 -> Option<Action>, halfStep: uint64, count: nat): (acts: seq<Action>)
    requires count > 0 ==> halfStep + count < TWO_64
    ensures |acts| <= count
  {
    if count == 0 then []
    else
      var init := Due(actionFor, halfStep, count - 1);
      if |init| < count - 1 then init
      else
        var a := actionFor(halfStep + count - 1);
        if a.Some? then init + [a.value] else init
  }

  /** The half step that a pending transaction is for, unless it has been executed. */
  function StillPending(pending: Option<uint64>, nextHalfStep: int): Option<uint64> {
    if pending.Some? && nextHalfStep > pending.value then None else pending
  }

  /** The actions due, and the last of their half steps. */
  function Sending(actionFor: uint64 -> Option<Action>, halfStep: uint64, count: nat): (r: (seq<Action>, Option<uint64>))
    requires count > 0 ==> halfStep + count < TWO_64
  {
    var acts := Due(actionFor, halfStep, count);
    (acts, if acts == [] then None else Some(halfStep + |acts| - 1))
  }

  function Decision(v: View, pending: Option<uint64>): (r: (seq<Action>, Option<uint64>))
    requires v.Valid()
  {
    if !v.CurrentConfig().Active() then ([], pending)
    else if StillPending(pending, v.nextHalfStep).Some? then ([], StillPending(pending, v.nextHalfStep))
    else Sending(v.ActionFor(), v.nextHalfStep, v.HalfStepsDue())
  }

  /** The part of the keyper's state that concerns execution. */
  class ExecutionState {
    var pendingHalfStep: Option<uint64>

    constructor ()
      ensures pendingHalfStep == None
    {
      pendingHalfStep := None;
    }

    method MaybeExecuteBatch(v: View) returns (actions: seq<Action>)
      requires v.Valid()
      modifies this
      ensures (actions, pendingHalfStep) == Decision(v, old(pendingHalfStep))
    {
      actions := [];
      var config := v.CurrentConfig();
      if !config.Active() {
        return;
      }
      if pendingHalfStep.Some? && v.nextHalfStep > pendingHalfStep.value {
        pendingHalfStep := None;
      }
      if pendingHalfStep.Some? {
        return;
      }
      actions := ExecuteDue(v.ActionFor(), v.nextHalfStep, v.HalfStepsDue());
    }

    /** Starting from a saved state, with the actions saved along with it. */
    method Start(savedPending: Option<uint64>, savedActions: seq<Action>, idle: bool)
      modifies this
      ensures pendingHalfStep == Loaded(savedPending, savedActions, idle)
    {
      pendingHalfStep := if savedPending == Some(0) then None else savedPending;
      if idle && |savedActions| == 0 && pendingHalfStep.Some? {
        pendingHalfStep := None;
      }
    }

    /** The loop over the half steps. */
    method ExecuteDue(actionFor: uint64 -> Option<Action>, nextHalfStep: uint64, n: nat) returns (actions: seq<Action>)
      requires pendingHalfStep.None? && (n > 0 ==> nextHalfStep + n < TWO_64)
      modifies this
      ensures (actions, pendingHalfStep) == Sending(actionFor, nextHalfStep, n)
    {
      actions := [];
      var i := 0;
      while i < n
        invariant i <= n && actions == Due(actionFor, nextHalfStep, i) && |actions| == i
        invariant pendingHalfStep == if actions == [] then None else Some(nextHalfStep + |actions| - 1)
      {
        var action := actionFor(nextHalfStep + i);
        if action.None? {
          DueStops(actionFor, nextHalfStep, i, n);
          break;
        }
        actions := actions + [action.value];
        pendingHalfStep := Some(nextHalfStep + i);
        i := i + 1;
      }
    }
  }

  /** Nothing is due after the first half step that is not. */
  lemma {:induction false} DueStops(actionFor: uint64 -> Option<Action>, halfStep: uint64, i: nat, n: nat)
    requires i < n && halfStep + n < TWO_64
    requires |Due(actionFor, halfStep, i)| == i && actionFor(halfStep + i).None?
    ensures Due(actionFor, halfStep, n) == Due(actionFor, halfStep, i)
  {
    if n > i + 1 {
      DueStops(actionFor, halfStep, i, n - 1);
    }
  }

  // ----- half steps over a whole run

  function HalfStepOf(a: Action): int {
    match a
    case ExecuteCipher(b) => 2 * b
    case SkipCipher(b) => 2 * b
    case ExecutePlain(b) => 2 * b + 1
  }

  /** Each action is for the half step it was decided for. */
  lemma ActionHalfStep(v: View, halfStep: uint64)
    requires v.ActionFor()(halfStep).Some?
    ensures HalfStepOf(v.ActionFor()(halfStep).value) == halfStep
  {
  }

  ghost predicate HalfStepsIncrease(acts: seq<Action>) {
    forall i, j :: 0 <= i < j < |acts| ==> HalfStepOf(acts[i]) < HalfStepOf(acts[j])
  }

  ghost predicate NoneTwice(acts: seq<Action>) {
    forall i, j :: 0 <= i < j < |acts| ==> HalfStepOf(acts[i]) != HalfStepOf(acts[j])
  }

  /** A run: decisions that are saved together with their actions, and restarts from what
      was saved last. A decision that is not saved before a crash has no effect. `idle`
      says that no transaction is under way, nor any other action saved. */
  datatype Event = Decided(view: View) | Restarted(idle: bool)

  /** All actions so far, the pending half step in memory, and what was saved last. The
      last field records the half step that a restart has forgotten, until something is
      sent again. */
  datatype History = History(
    sent: seq<Action>,
    pending: Option<uint64>,
    savedPending: Option<uint64>,
    savedActions: seq<Action>,
    forgotten: Option<uint64>)

  /** The pending half step after loading: gob does not keep a pointer to 0, and what is
      left over without a reason is dropped. */
  function Loaded(savedPending: Option<uint64>, savedActions: seq<Action>, idle: bool): Option<uint64> {
    if savedPending == Some(0) || (idle && savedActions == []) then None else savedPending
  }

  function AfterEvent(t: History, e: Event): History
    requires e.Decided? ==> e.view.Valid()
  {
    match e
    case Decided(v) =>
      var (acts, pending) := Decision(v, t.pending);
      History(t.sent + acts, pending, pending, acts, if acts == [] then t.forgotten else None)
    case Restarted(idle) =>
      var pending := Loaded(t.savedPending, t.savedActions, idle);
      t.(pending := pending,
         forgotten := if pending.Some? then None else if t.savedPending.Some? then t.savedPending else t.forgotten)
  }

  ghost predicate ValidRun(es: seq<Event>) {
    forall i :: 0 <= i < |es| && es[i].Decided? ==> es[i].view.Valid()
  }

  /** The contract's counter does not go back. */
  ghost predicate CounterAdvances(es: seq<Event>) {
    forall i, j :: 0 <= i < j < |es| && es[i].Decided? && es[j].Decided? ==>
      es[i].view.nextHalfStep <= es[j].view.nextHalfStep
  }

  ghost function Run(es: seq<Event>): History
    requires ValidRun(es)
  {
    if es == [] then History([], None, None, [], None)
    else AfterEvent(Run(es[..|es| - 1]), es[|es| - 1])
  }

  /** A decision that sends something does so when the counter has passed the half step
      that a restart has forgotten. */
  predicate Waits(t: History, e: Event)
    requires e.Decided? ==> e.view.Valid()
  {
    e.Decided? && t.forgotten.Some? && Decision(e.view, t.pending).0 != [] ==> e.view.nextHalfStep > t.forgotten.value
  }

  ghost predicate AlwaysWaits(es: seq<Event>)
    requires ValidRun(es)
  {
    es != [] ==> AlwaysWaits(es[..|es| - 1]) && Waits(Run(es[..|es| - 1]), es[|es| - 1])
  }

  ghost predicate Consecutive(acts: seq<Action>, halfStep: int) {
    forall i :: 0 <= i < |acts| ==> HalfStepOf(acts[i]) == halfStep + i
  }

  ghost predicate ForItsHalfStep(actionFor: uint64 -> Option<Action>) {
    forall h: uint64 :: actionFor(h).Some? ==> HalfStepOf(actionFor(h).value) == h
  }

  lemma {:induction false} DueConsecutive(actionFor: uint64 -> Option<Action>, halfStep: uint64, count: nat)
    requires ForItsHalfStep(actionFor) && (count > 0 ==> halfStep + count < TWO_64)
    ensures Consecutive(Due(actionFor, halfStep, count), halfStep)
  {
    if count > 0 {
      DueConsecutive(actionFor, halfStep, count - 1);
    }
  }

  lemma DecidesConsecutive(v: View, pending: Option<uint64>)
    requires v.Valid()
    ensures Consecutive(Decision(v, pending).0, v.nextHalfStep)
  {
    var c := v.CurrentConfig();
    if c.Active() {
      forall h: uint64 | v.ActionFor()(h).Some?
        ensures HalfStepOf(v.ActionFor()(h).value) == h
      {
        ActionHalfStep(v, h);
      }
      DueConsecutive(v.ActionFor(), v.nextHalfStep, v.HalfStepsDue());
    }
  }

  ghost predicate Sent(acts: seq<Action>, halfStep: int) {
    exists i :: 0 <= i < |acts| && HalfStepOf(acts[i]) == halfStep
  }

  /** A half step that is remembered, in memory, on disk or as forgotten, is the last one
      sent, and from the counter on all half steps up to it have been sent. */
  ghost predicate LastSent(acts: seq<Action>, counter: int, h: Option<uint64>) {
    h.Some? ==>
      && acts != [] && HalfStepOf(acts[|acts| - 1]) == h.value
      && forall x :: counter <= x <= h.value ==> Sent(acts, x)
  }

  /** What is known after a run, as long as no half step has been sent twice. */
  ghost predicate Settled(t: History, counter: int) {
    && HalfStepsIncrease(t.sent)
    && LastSent(t.sent, counter, t.pending) && LastSent(t.sent, counter, t.savedPending)
    && LastSent(t.sent, counter, t.forgotten)
    && (if t.pending.Some? then t.savedPending == t.pending else t.forgotten.None? ==> t.savedPending.None?)
    && (t.sent != [] && t.pending.None? && t.forgotten.None? ==> HalfStepOf(t.sent[|t.sent| - 1]) < counter)
  }

  lemma CounterMoves(t: History, counter: int, counter': int)
    requires Settled(t, counter) && counter <= counter'
    ensures Settled(t, counter')
  {
  }

  lemma RestartSettles(t: History, idle: bool, counter: int)
    requires Settled(t, counter)
    ensures Settled(AfterEvent(t, Restarted(idle)), counter)
  {
  }

  lemma AppendIncreases(acts: seq<Action>, more: seq<Action>, halfStep: int)
    requires HalfStepsIncrease(acts) && Consecutive(more, halfStep)
    requires acts != [] ==> HalfStepOf(acts[|acts| - 1]) < halfStep
    ensures HalfStepsIncrease(acts + more)
  {
  }

  lemma AppendSent(acts: seq<Action>, more: seq<Action>, halfStep: int)
    requires Consecutive(more, halfStep)
    ensures forall x :: halfStep <= x < halfStep + |more| ==> Sent(acts + more, x)
  {
    forall x | halfStep <= x < halfStep + |more|
      ensures Sent(acts + more, x)
    {
      assert (acts + more)[|acts| + x - halfStep] == more[x - halfStep];
    }
  }

  /** What a decision can be: either it sends the counter's half step and the following
      ones, with nothing pending before, or it sends nothing. */
  ghost predicate Shaped(counter: int, pending: Option<uint64>, acts: seq<Action>, pending': Option<uint64>) {
    if acts == [] then pending' == pending || pending' == StillPending(pending, counter)
    else
      && StillPending(pending, counter).None? && Consecutive(acts, counter)
      && pending'.Some? && pending'.value == counter + |acts| - 1
  }

  lemma DecisionShaped(v: View, pending: Option<uint64>)
    requires v.Valid()
    ensures Shaped(v.nextHalfStep, pending, Decision(v, pending).0, Decision(v, pending).1)
  {
    DecidesConsecutive(v, pending);
  }

  lemma ShapedSettles(t: History, t': History, counter: int, acts: seq<Action>)
    requires Settled(t, counter) && Shaped(counter, t.pending, acts, t'.pending)
    requires acts != [] && t.forgotten.Some? ==> counter > t.forgotten.value
    requires t' == History(t.sent + acts, t'.pending, t'.pending, acts, if acts == [] then t.forgotten else None)
    ensures Settled(t', counter)
  {
    if acts != [] {
      AppendIncreases(t.sent, acts, counter);
      AppendSent(t.sent, acts, counter);
    } else {
      assert t.sent + acts == t.sent;
    }
  }

  lemma DecisionSettles(t: History, v: View)
    requires v.Valid() && Settled(t, v.nextHalfStep) && Waits(t, Decided(v))
    ensures Settled(AfterEvent(t, Decided(v)), v.nextHalfStep)
  {
    DecisionShaped(v, t.pending);
    ShapedSettles(t, AfterEvent(t, Decided(v)), v.nextHalfStep, Decision(v, t.pending).0);
  }

  /** Without waiting, the counter's half step is sent a second time. */
  lemma DecisionRepeats(t: History, v: View)
    requires v.Valid() && Settled(t, v.nextHalfStep) && !Waits(t, Decided(v))
    ensures !NoneTwice(AfterEvent(t, Decided(v)).sent)
  {
    var acts := Decision(v, t.pending).0;
    DecidesConsecutive(v, t.pending);
    assert Sent(t.sent, v.nextHalfStep);
    var i :| 0 <= i < |t.sent| && HalfStepOf(t.sent[i]) == v.nextHalfStep;
    var all := t.sent + acts;
    assert HalfStepOf(all[i]) == HalfStepOf(all[|t.sent|]);
  }

  ghost function LastCounter(es: seq<Event>): int
    requires ValidRun(es)
  {
    if es == [] then 0
    else if es[|es| - 1].Decided? then es[|es| - 1].view.nextHalfStep
    else LastCounter(es[..|es| - 1])
  }

  lemma {:induction false} LastCounterBelow(es: seq<Event>, v: View)
    requires ValidRun(es) && (forall i :: 0 <= i < |es| && es[i].Decided? ==> es[i].view.nextHalfStep <= v.nextHalfStep)
    ensures LastCounter(es) <= v.nextHalfStep
  {
    if es != [] {
      LastCounterBelow(es[..|es| - 1], v);
    }
  }

  lemma {:induction false} WaitingSettles(es: seq<Event>)
    requires ValidRun(es) && CounterAdvances(es) && AlwaysWaits(es)
    ensures Settled(Run(es), LastCounter(es))
  {
    if es != [] {
      var n := |es| - 1;
      WaitingSettles(es[..n]);
      EventSettles(es);
    }
  }

  lemma EventSettles(es: seq<Event>)
    requires ValidRun(es) && CounterAdvances(es) && es != []
    requires Settled(Run(es[..|es| - 1]), LastCounter(es[..|es| - 1])) && Waits(Run(es[..|es| - 1]), es[|es| - 1])
    ensures Settled(Run(es), LastCounter(es))
  {
    var n := |es| - 1;
    match es[n]
    case Decided(v) =>
      LastCounterBelow(es[..n], v);
      CounterMoves(Run(es[..n]), LastCounter(es[..n]), v.nextHalfStep);
      DecisionSettles(Run(es[..n]), v);
    case Restarted(idle) =>
      RestartSettles(Run(es[..n]), idle, LastCounter(es[..n]));
  }

  lemma {:induction false} NotWaitingRepeats(es: seq<Event>)
    requires ValidRun(es) && CounterAdvances(es) && !AlwaysWaits(es)
    ensures !NoneTwice(Run(es).sent)
  {
    var n := |es| - 1;
    var before := Run(es[..n]);
    if AlwaysWaits(es[..n]) {
      WaitingSettles(es[..n]);
      LastCounterBelow(es[..n], es[n].view);
      CounterMoves(before, LastCounter(es[..n]), es[n].view.nextHalfStep);
      DecisionRepeats(before, es[n].view);
    } else {
      NotWaitingRepeats(es[..n]);
      assert before.sent <= Run(es).sent;
    }
  }

  /** No half step is sent twice, over any run with restarts, exactly if after a restart
      that has forgotten the pending half step nothing is sent until the counter has
      passed it. Then the half steps sent strictly increase. */
  lemma NeverSentTwice(es: seq<Event>)
    requires ValidRun(es) && CounterAdvances(es)
    ensures NoneTwice(Run(es).sent) <==> AlwaysWaits(es)
    ensures HalfStepsIncrease(Run(es).sent) <==> AlwaysWaits(es)
  {
    if AlwaysWaits(es) {
      WaitingSettles(es);
    } else {
      NotWaitingRepeats(es);
    }
  }

  /** Without restarts there is nothing to wait for. */
  lemma {:induction false} WithoutRestarts(es: seq<Event>)
    requires ValidRun(es) && forall i :: 0 <= i < |es| ==> es[i].Decided?
    ensures AlwaysWaits(es) && Run(es).forgotten.None?
  {
    if es != [] {
      WithoutRestarts(es[..|es| - 1]);
    }
  }

  // ----- a run that sends a half step twice

  const ONE_KEYPER := ZERO_CONFIG.(startBlockNumber := 5, keypers := [7], batchSpan := 10)

  /** After the guard config, one config from block 5 on with batches of ten blocks and one
      keyper; at block 15 the plain half step of the first batch is next. */
  predicate PlainBatchNext(v: View) {
    && v.configs == [ZERO_CONFIG, ONE_KEYPER] && v.block == 15 && v.nextHalfStep == 1
    && v.keyper.self == 7 && v.keyper.staggering == 0
  }

  lemma FirstBatch()
    ensures BatchIndexAt(ONE_KEYPER, 15) == 1
    ensures BatchEndBlock(ONE_KEYPER, 0) == 15
  {
    assert 0 * 10 == 0;
  }

  lemma NoDelay(h: uint64)
    ensures ExecutionDelay(ONE_KEYPER, 0, 7, h) == 0
  {
    assert Staggering(1, 0, 0) == 0;
  }

  lemma PlainBatchSent(v: View, c: BatchConfig, batchIndex: uint64, h: uint64)
    requires h == 2 * batchIndex + 1
    requires v.configs == [ZERO_CONFIG, c] && c.Active() && v.keyper.self in c.keypers && c.startBatchIndex <= batchIndex
    requires v.block >= BatchEndBlock(c, batchIndex) && ExecutionDelay(c, v.keyper.staggering, v.keyper.self, h) == 0
    ensures v.ActionFor()(h) == Some(ExecutePlain(batchIndex))
  {
    assert h / 2 == batchIndex;
    WrapSmall(BatchEndBlock(c, batchIndex));
    assert ConfigIndex([ZERO_CONFIG, c], batchIndex) == Returned(1);
  }

  lemma GuardThenOne()
    ensures ActiveConfigIndex([ZERO_CONFIG, ONE_KEYPER], 15) == Some(1)
  {
  }

  lemma OneHalfStep(batchIndex: uint64)
    requires batchIndex == 1
    ensures NumHalfStepsToExecute(1, batchIndex) == 1
  {
  }

  lemma OneIsDue(v: View)
    requires PlainBatchNext(v)
    ensures v.Valid() && v.CurrentConfig() == ONE_KEYPER && v.HalfStepsDue() == 1
  {
    GuardThenOne();
    FirstBatch();
    OneHalfStep(BatchIndexAt(ONE_KEYPER, 15));
  }

  lemma DueOne(actionFor: uint64 -> Option<Action>, halfStep: uint64, a: Action)
    requires actionFor(halfStep) == Some(a) && halfStep + 1 < TWO_64
    ensures Due(actionFor, halfStep, 1) == [a]
  {
    assert Due(actionFor, halfStep, 0) == [];
  }

  lemma SendsOne(actionFor: uint64 -> Option<Action>, halfStep: uint64, a: Action)
    requires actionFor(halfStep) == Some(a) && halfStep + 1 < TWO_64
    ensures Sending(actionFor, halfStep, 1) == ([a], Some(halfStep))
  {
    DueOne(actionFor, halfStep, a);
  }

  lemma DecidesDue(v: View, a: Action)
    requires v.Valid() && v.CurrentConfig().Active() && v.HalfStepsDue() == 1 && v.ActionFor()(v.nextHalfStep) == Some(a)
    ensures Decision(v, None) == ([a], Some(v.nextHalfStep))
  {
    SendsOne(v.ActionFor(), v.nextHalfStep, a);
    assert Decision(v, None) == Sending(v.ActionFor(), v.nextHalfStep, 1);
  }

  lemma DecidesNothing(v: View)
    requires v.Valid() && v.CurrentConfig().Active()
    ensures Decision(v, Some(v.nextHalfStep)) == ([], Some(v.nextHalfStep))
  {
  }

  lemma RunSnoc(es: seq<Event>, e: Event)
    requires ValidRun(es) && (e.Decided? ==> e.view.Valid())
    ensures ValidRun(es + [e]) && Run(es + [e]) == AfterEvent(Run(es), e)
  {
    assert (es + [e])[..|es|] == es;
  }

  /** A decision that sends a, and one that waits for it. */
  ghost predicate SendsOnce(v: View, a: Action)
    requires v.Valid()
  {
    && Decision(v, None) == ([a], Some(v.nextHalfStep))
    && Decision(v, Some(v.nextHalfStep)) == ([], Some(v.nextHalfStep)) && v.nextHalfStep > 0
  }

  /** The first decision sends, the second does not. */
  lemma TwoDecisions(v: View, a: Action)
    requires v.Valid() && SendsOnce(v, a)
    ensures ValidRun([Decided(v)] + [Decided(v)])
    ensures Run([Decided(v)] + [Decided(v)]) == History([a], Some(v.nextHalfStep), Some(v.nextHalfStep), [], None)
  {
    var one: seq<Event> := [Decided(v)];
    assert [] + one == one;
    RunSnoc([], Decided(v));
    RunSnoc(one, Decided(v));
  }

  lemma ForgetsAndRepeats(v: View, a: Action)
    requires v.Valid() && SendsOnce(v, a)
    ensures Run(TwoDecisionsAndRestart(v)).sent == [a, a]
  {
    var two: seq<Event> := [Decided(v)] + [Decided(v)];
    TwoDecisions(v, a);
    RunSnoc(two, Restarted(true));
    RunSnoc(two + [Restarted(true)], Decided(v));
    assert two + [Restarted(true)] + [Decided(v)] == TwoDecisionsAndRestart(v);
  }

  /** The plain half step of a batch is due, without delay. */
  ghost predicate PlainDue(v: View, c: BatchConfig, batchIndex: uint64) {
    && v.configs == [ZERO_CONFIG, c] && c.Active() && v.keyper.self in c.keypers && c.startBatchIndex <= batchIndex
    && v.block >= BatchEndBlock(c, batchIndex) && v.nextHalfStep == 2 * batchIndex + 1
    && ExecutionDelay(c, v.keyper.staggering, v.keyper.self, v.nextHalfStep) == 0
  }

  lemma PlainBatchRepeats(v: View, c: BatchConfig, batchIndex: uint64)
    requires v.Valid() && v.CurrentConfig().Active() && v.HalfStepsDue() == 1
    requires PlainDue(v, c, batchIndex)
    ensures Run(TwoDecisionsAndRestart(v)).sent == [ExecutePlain(batchIndex), ExecutePlain(batchIndex)]
  {
    PlainBatchSent(v, c, batchIndex, v.nextHalfStep);
    DecidesDue(v, ExecutePlain(batchIndex));
    DecidesNothing(v);
    ForgetsAndRepeats(v, ExecutePlain(batchIndex));
  }

  /** A keyper sends the half step and decides once more, without an action, before the
      counter has moved. Its transaction is no longer under way when it restarts: it
      forgets the half step and sends it again. */
  function TwoDecisionsAndRestart(v: View): (es: seq<Event>)
    requires v.Valid()
    ensures ValidRun(es) && CounterAdvances(es)
  {
    [Decided(v), Decided(v), Restarted(true), Decided(v)]
  }

  lemma PlainBatchReady(v: View)
    requires PlainBatchNext(v)
    ensures PlainDue(v, ONE_KEYPER, 0)
  {
    assert 7 in ONE_KEYPER.keypers;
    FirstBatch();
    NoDelay(1);
  }

  lemma RestartSendsTwice(v: View)
    requires PlainBatchNext(v)
    ensures v.Valid() && Run(TwoDecisionsAndRestart(v)).sent == [ExecutePlain(0), ExecutePlain(0)]
  {
    PlainBatchReady(v);
    OneIsDue(v);
    PlainBatchRepeats(v, ONE_KEYPER, 0);
  }
}
