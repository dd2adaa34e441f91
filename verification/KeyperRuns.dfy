/** The keyper's main loop as a state machine: steps that may or may not decide,
    saving after every step, and crashes that go back to what was saved. What a
    decision does to the DKG, and what becomes of the DKG when it is loaded from
    disk, are parameters. */
module KeyperRuns {
  import opened Outcome

  /** A keyper's DKG for one eon: the height the eon starts at, the DKG as created,
      the effect of a step that reads from a height up to another, and the effect of
      saving the DKG and loading it again. */
  datatype Machine<!D> = Machine(start: int, initial: D, step: (D, int, int) -> D, reload: D -> D)

  /** What a keyper holds in memory and saves to disk. */
  datatype Keyper<+D> = Keyper(syncHeight: int, currentBlock: int, dkg: Option<D>)

  datatype System<+D> = System(memory: Keyper<D>, disk: Keyper<D>)

  /** A step sees the chain up to a block and is saved; it decides only if both
      chains are in sync and the keyper is registered. A crash, before or after a
      save, goes back to what was saved last. */
  datatype Op = Step(block: int, synced: bool) | Crash

  function Decide<D>(m: Machine<D>, k: Keyper<D>, block: int): Keyper<D> {
    var dkg := if k.dkg.None? && m.start <= block then Some(m.initial) else k.dkg;
    Keyper(block + 1, block, if dkg.None? then None else Some(m.step(dkg.value, k.syncHeight, block)))
  }

  function LoadState<D>(m: Machine<D>, k: Keyper<D>): Keyper<D> {
    Keyper(if k.syncHeight == 0 && k.currentBlock > 0 then k.currentBlock else k.syncHeight, k.currentBlock,
           if k.dkg.None? then None else Some(m.reload(k.dkg.value)))
  }

  function Perform<D>(m: Machine<D>, sys: System<D>, op: Op): System<D> {
    match op
    case Step(block, synced) =>
      var k := if synced then Decide(m, sys.memory, block) else sys.memory.(currentBlock := block);
      System(k, k)
    case Crash => System(LoadState(m, sys.disk), sys.disk)
  }

  function Run<D>(m: Machine<D>, sys: System<D>, ops: seq<Op>): System<D>
    decreases |ops|
  {
    if ops == [] then sys else Run(m, Perform(m, sys, ops[0]), ops[1..])
  }

  function Start<D>(): System<D> {
    System(Keyper(0, -1, None), Keyper(0, -1, None))
  }

  /** The chain does not shrink, and a crash leads back neither to a state in which the
      keyper has never decided although the eon has begun, nor to a DKG that loading
      would harm. */
  predicate Orderly<D>(m: Machine<D>, harmless: D -> bool, sys: System<D>, op: Op) {
    match op
    case Step(block, _) => sys.memory.currentBlock <= block
    case Crash =>
      && (sys.disk.syncHeight > 0 || sys.disk.currentBlock <= m.start)
      && (sys.disk.dkg.Some? ==> harmless(sys.disk.dkg.value))
  }

  predicate OrderlyRun<D>(m: Machine<D>, harmless: D -> bool, sys: System<D>, ops: seq<Op>)
    decreases |ops|
  {
    ops != [] ==> Orderly(m, harmless, sys, ops[0]) && OrderlyRun(m, harmless, Perform(m, sys, ops[0]), ops[1..])
  }

  /** The DKG that one step from the eon's start makes. */
  function Ideal<D>(m: Machine<D>, last: int): D {
    m.step(m.initial, m.start, last)
  }

  /** Reading from before the eon's start adds nothing. */
  ghost predicate StartsLate<D>(m: Machine<D>, alike: (D, D) -> bool) {
    forall h, c :: h <= m.start <= c ==> alike(m.step(m.initial, h, c), Ideal(m, c))
  }

  /** A DKG that is like the ideal one stays like it through a step. */
  ghost predicate StepsAlike<D(!new)>(m: Machine<D>, alike: (D, D) -> bool) {
    forall d, c, k, c' :: m.start <= c <= c' && k == c + 1 && alike(d, Ideal(m, c)) ==>
      alike(m.step(d, k, c'), Ideal(m, c'))
  }

  /** It also stays like it when it is loaded, where loading does no harm. */
  ghost predicate LoadsAlike<D(!new)>(m: Machine<D>, alike: (D, D) -> bool, harmless: D -> bool) {
    forall d, c :: m.start <= c && alike(d, Ideal(m, c)) && harmless(d) ==> alike(m.reload(d), Ideal(m, c))
  }

  ghost predicate Lawful<D(!new)>(m: Machine<D>, alike: (D, D) -> bool, harmless: D -> bool) {
    m.start >= 0 && StartsLate(m, alike) && StepsAlike(m, alike) && LoadsAlike(m, alike, harmless)
  }

  /** What the DKG is like, given the last height decided on. */
  ghost predicate Inv<D>(m: Machine<D>, alike: (D, D) -> bool, k: Keyper<D>) {
    && 0 <= k.syncHeight <= k.currentBlock + 1
    && (k.dkg.None? ==> k.syncHeight <= m.start)
    && (k.dkg.Some? ==> k.syncHeight > m.start)
    && (k.dkg.Some? ==> alike(k.dkg.value, Ideal(m, k.syncHeight - 1)))
  }

  lemma PerformKeepsInv<D(!new)>(m: Machine<D>, alike: (D, D) -> bool, harmless: D -> bool, sys: System<D>, op: Op)
    requires Lawful(m, alike, harmless) && Inv(m, alike, sys.memory) && Inv(m, alike, sys.disk)
    requires Orderly(m, harmless, sys, op)
    ensures Inv(m, alike, Perform(m, sys, op).memory) && Inv(m, alike, Perform(m, sys, op).disk)
  {
  }

  lemma {:induction false} RunKeepsInv<D(!new)>(m: Machine<D>, alike: (D, D) -> bool, harmless: D -> bool,
                                                sys: System<D>, ops: seq<Op>)
    requires Lawful(m, alike, harmless) && Inv(m, alike, sys.memory) && Inv(m, alike, sys.disk)
    requires OrderlyRun(m, harmless, sys, ops)
    ensures Inv(m, alike, Run(m, sys, ops).memory)
    decreases |ops|
  {
    if ops != [] {
      PerformKeepsInv(m, alike, harmless, sys, ops[0]);
      RunKeepsInv(m, alike, harmless, Perform(m, sys, ops[0]), ops[1..]);
    }
  }

  /** After any orderly run the DKG is like the one that a single step from the eon's
      start would have made. */
  lemma RunIsLikeOneStep<D(!new)>(m: Machine<D>, alike: (D, D) -> bool, harmless: D -> bool, ops: seq<Op>, last: int)
    requires Lawful(m, alike, harmless) && OrderlyRun(m, harmless, Start(), ops)
    requires Run(m, Start(), ops).memory.syncHeight == last + 1
    ensures var dkg := Run(m, Start(), ops).memory.dkg;
      if last < m.start then dkg.None? else dkg.Some? && alike(dkg.value, Ideal(m, last))
  {
    RunKeepsInv(m, alike, harmless, Start(), ops);
  }

  // ----- a restart before the first decision

  lemma RunCons<D>(m: Machine<D>, sys: System<D>, op: Op, ops: seq<Op>)
    ensures Run(m, sys, [op] + ops) == Run(m, Perform(m, sys, op), ops)
  {
    assert ([op] + ops)[1..] == ops;
  }

  /** A keyper sees the chain up to c0 without deciding, restarts, and decides at c. */
  function Restarted<D>(m: Machine<D>, c0: int, c: int): Option<D> {
    Run(m, Start(), [Step(c0, false), Crash, Step(c, true)]).memory.dkg
  }

  /** A keyper decides at c right away. */
  function Straight<D>(m: Machine<D>, c: int): Option<D> {
    Run(m, Start(), [Step(c, true)]).memory.dkg
  }

  lemma StepIs<D>(m: Machine<D>, c: int)
    requires m.start <= c
    ensures Run(m, Start(), [Step(c, true)]).memory.dkg == Some(m.step(m.initial, 0, c))
  {
    assert [Step(c, true)][1..] == [];
  }

  /** The restarted keyper reads from c0 on, the other one from the beginning. */
  lemma RestartedIs<D>(m: Machine<D>, c0: int, c: int)
    requires 0 < c0 <= c && m.start <= c
    ensures Restarted(m, c0, c) == Some(m.step(m.initial, c0, c))
    ensures Straight(m, c) == Some(m.step(m.initial, 0, c))
  {
    var one := Perform(m, Start(), Step(c0, false));
    RunCons(m, Start(), Step(c0, false), [Crash, Step(c, true)]);
    var two := Perform(m, one, Crash);
    RunCons(m, one, Crash, [Step(c, true)]);
    RunCons(m, two, Step(c, true), []);
    StepIs(m, c);
    assert [Step(c, true)] + [] == [Step(c, true)] && [Crash] + [Step(c, true)] == [Crash, Step(c, true)];
    assert [Step(c0, false)] + [Crash, Step(c, true)] == [Step(c0, false), Crash, Step(c, true)];
  }

  /** A keyper decides at c, restarts, and decides again at c'. */
  function RestartAfter(c: int, c': int): seq<Op> {
    [Step(c, true), Crash, Step(c', true)]
  }

  lemma RestartAfterIs<D>(m: Machine<D>, harmless: D -> bool, c: int, c': int)
    requires 0 <= c <= c' && m.start <= c
    ensures Run(m, Start(), RestartAfter(c, c')).memory.dkg == Some(m.step(m.reload(m.step(m.initial, 0, c)), c + 1, c'))
    ensures OrderlyRun(m, harmless, Start(), RestartAfter(c, c')) <==> harmless(m.step(m.initial, 0, c))
  {
    var one := Perform(m, Start(), Step(c, true));
    var rest, last := [Crash, Step(c', true)], [Step(c', true)];
    var two := Perform(m, one, Crash);
    assert RestartAfter(c, c')[1..] == rest && rest[1..] == last && last[1..] == [];
    assert Run(m, Start(), RestartAfter(c, c')) == Run(m, one, rest);
    assert Run(m, one, rest) == Run(m, two, last);
    assert two.memory == Keyper(c + 1, c, Some(m.reload(m.step(m.initial, 0, c))));
    assert Run(m, two, last) == Perform(m, two, Step(c', true));
    assert OrderlyRun(m, harmless, two, last);
    assert OrderlyRun(m, harmless, one, rest) <==> harmless(m.step(m.initial, 0, c));
  }
}
