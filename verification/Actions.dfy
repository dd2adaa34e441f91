/** Numbering of decided actions across crashes.

    The keyper saves what it decided together with a counter; the runner keeps its
    own file with the actions it has taken over and the next free number. Either file
    is replaced atomically, and a crash may come between or inside steps. */
module Actions {

  datatype Pending<A> = Pending(actionMap: map<nat, A>, txHashes: map<nat, int>, currentID: nat)

  /** The entries put under consecutive numbers. */
  function PutAll<A>(m: map<nat, A>, start: nat, acts: seq<A>): map<nat, A> {
    if acts == [] then m
    else PutAll(m, start, acts[..|acts| - 1])[start + |acts| - 1 := acts[|acts| - 1]]
  }

  lemma {:induction false} PutAllAt<A>(m: map<nat, A>, start: nat, acts: seq<A>)
    ensures forall k: nat :: k in PutAll(m, start, acts) <==> k in m || start <= k < start + |acts|
    ensures forall k: nat :: k in PutAll(m, start, acts) ==>
      PutAll(m, start, acts)[k] == if start <= k < start + |acts| then acts[k - start] else m[k]
  {
    if acts != [] {
      PutAllAt(m, start, acts[..|acts| - 1]);
    }
  }

  /** Taking over the actions decided under the numbers from `id`: those below
      `currentID` have been taken over before. */
  function Taken<A>(p: Pending<A>, id: nat, acts: seq<A>): Pending<A>
    requires id <= p.currentID
  {
    if p.currentID >= id + |acts| then p
    else
      var rest := acts[p.currentID - id..];
      p.(actionMap := PutAll(p.actionMap, p.currentID, rest), currentID := id + |acts|)
  }

  predicate StrictlySorted(ids: seq<nat>) {
    forall i, j :: 0 <= i < j < |ids| ==> ids[i] < ids[j]
  }

  class PendingActions<A> {
    var actionMap: map<nat, A>
    var txHashes: map<nat, int>
    var currentID: nat

    ghost function View(): Pending<A>
      reads this
    {
      Pending(actionMap, txHashes, currentID)
    }

    constructor ()
      ensures View() == Pending(map[], map[], 0)
    {
      actionMap := map[];
      txHashes := map[];
      currentID := 0;
    }

    /** Panics if `id` is beyond the next free number, so callers must avoid that.
        Returns the range of numbers to schedule. */
    method AddActions(id: nat, actions: seq<A>) returns (startID: nat, endID: nat)
      requires id <= currentID
      modifies this
      ensures View() == Taken(old(View()), id, actions)
      ensures startID == old(currentID) && endID == currentID
    {
      startID := currentID;
      if currentID >= id + |actions| {
        return startID, startID;
      }
      var skip := currentID - id;
      var rest := actions[skip..];
      for i := 0 to |rest|
        invariant currentID == old(currentID) && txHashes == old(txHashes)
        invariant actionMap == PutAll(old(actionMap), startID, rest[..i])
      {
        assert rest[..i + 1][..i] == rest[..i];
        actionMap := actionMap[startID + i := rest[i]];
      }
      assert rest[..|rest|] == rest;
      currentID := currentID + |rest|;
      endID := currentID;
    }

    method RemoveAction(id: nat)
      modifies this
      ensures View() == old(View()).(actionMap := old(actionMap) - {id}, txHashes := old(txHashes) - {id})
    {
      actionMap := actionMap - {id};
      txHashes := txHashes - {id};
    }

    method SortedIDs() returns (ids: seq<nat>)
      ensures StrictlySorted(ids)
      ensures forall id: nat :: id in ids <==> id in actionMap
    {
      ids := [];
      var rest := actionMap.Keys;
      while rest != {}
        invariant rest <= actionMap.Keys && StrictlySorted(ids)
        invariant forall id: nat :: id in ids <==> id in actionMap && id !in rest
        decreases rest
      {
        var id :| id in rest;
        rest := rest - {id};
        forall x: nat {
          InsertedMembers(ids, id, x);
        }
        ids := Inserted(ids, id);
      }
    }
  }

  /** Where a new number belongs among sorted ones. */
  function Position(ids: seq<nat>, id: nat): (k: nat)
    requires StrictlySorted(ids) && id !in ids
    ensures k <= |ids|
    ensures forall i :: 0 <= i < k ==> ids[i] < id
    ensures forall i :: k <= i < |ids| ==> id < ids[i]
  {
    if ids == [] || ids[|ids| - 1] < id then |ids|
    else Position(ids[..|ids| - 1], id)
  }

  function Inserted(ids: seq<nat>, id: nat): (r: seq<nat>)
    requires StrictlySorted(ids) && id !in ids
    ensures StrictlySorted(r)
  {
    var k := Position(ids, id);
    ids[..k] + [id] + ids[k..]
  }

  lemma InsertedMembers(ids: seq<nat>, id: nat, x: nat)
    requires StrictlySorted(ids) && id !in ids
    ensures x in Inserted(ids, id) <==> x == id || x in ids
  {
    var k := Position(ids, id);
    assert ids == ids[..k] + ids[k..];
  }

  // ----- the protocol

  /** The part of the keyper's state that concerns actions. */
  datatype Keyper<A> = Keyper(counter: nat, actions: seq<A>)

  /** Where the keyper is in its loop; while the pending actions are being saved,
      `rest` are those just taken over. */
  datatype Stage<A> = Idle | Decided | Running | Saving(rest: seq<A>) | Booting

  /** Memory and disk of one keyper. `decided` is the sequence of all actions whose
      decision was saved, `taken` the history of actions entered into the saved action
      map with their numbers, and `scheduled` the numbers scheduled since the last
      start. */
  datatype Sys<A> = Sys(
    stage: Stage<A>,
    memory: Keyper<A>,
    disk: Keyper<A>,
    pending: Pending<A>,
    pendingDisk: Pending<A>,
    decided: seq<A>,
    taken: seq<(nat, A)>,
    scheduled: seq<nat>)

  datatype Step<A> =
    | Decide(actions: seq<A>)
    | SaveState
    | RunActions
    | SavePending
    | Remove(id: nat)
    | Crash
    | Boot(ids: seq<nat>)

  function Start<A>(): Sys<A> {
    var none := Pending(map[], map[], 0);
    Sys(Idle, Keyper(0, []), Keyper(0, []), none, none, [], [], [])
  }

  ghost predicate IsSortedIDs<A>(m: map<nat, A>, ids: seq<nat>) {
    StrictlySorted(ids) && forall id: nat :: id in ids <==> id in m
  }

  /** The lock of the pending actions is held while they are being saved. */
  ghost predicate Enabled<A>(s: Sys<A>, step: Step<A>) {
    match step
    case Decide(_) => s.stage == Idle
    case SaveState => s.stage == Decided
    case RunActions => s.stage == Running
    case SavePending => s.stage.Saving?
    case Remove(_) => s.stage in {Idle, Decided, Running}
    case Crash => true
    case Boot(ids) => s.stage == Booting && IsSortedIDs(s.pending.actionMap, ids)
  }

  /** The two places where the source panics. */
  predicate Panics<A>(s: Sys<A>, step: Step<A>) {
    || (step.Decide? && |s.memory.actions| > 0)
    || (step.RunActions? && |s.memory.actions| > 0 && s.memory.counter > s.pending.currentID)
  }

  function Numbers(lo: nat, n: nat): seq<nat> {
    seq(n, i requires i >= 0 => lo + i)
  }

  function Numbered<A>(lo: nat, acts: seq<A>): seq<(nat, A)> {
    seq(|acts|, i requires 0 <= i < |acts| => (lo + i, acts[i]))
  }

  /** The counter moves past the actions run. */
  function Ran<A>(k: Keyper<A>): Keyper<A> {
    Keyper(k.counter + |k.actions|, [])
  }

  function Next<A>(s: Sys<A>, step: Step<A>): Sys<A>
    requires !Panics(s, step)
  {
    match step
    case Decide(actions) => s.(stage := Decided, memory := s.memory.(actions := actions))
    case SaveState => s.(stage := Running, disk := s.memory, decided := s.decided + s.memory.actions)
    case RunActions =>
      var c, acts := s.memory.counter, s.memory.actions;
      if |acts| == 0 || s.pending.currentID >= c + |acts| then s.(stage := Idle, memory := Ran(s.memory))
      else s.(stage := Saving(acts[s.pending.currentID - c..]), pending := Taken(s.pending, c, acts))
    case SavePending =>
      var rest := if s.stage.Saving? then s.stage.rest else [];
      s.(stage := Idle, memory := Ran(s.memory), pendingDisk := s.pending,
         taken := s.taken + Numbered(s.pendingDisk.currentID, rest),
         scheduled := s.scheduled + Numbers(s.pendingDisk.currentID, |rest|))
    case Remove(id) =>
      var p := s.pending.(actionMap := s.pending.actionMap - {id}, txHashes := s.pending.txHashes - {id});
      s.(pending := p, pendingDisk := p)
    case Crash => s.(stage := Booting, memory := s.disk, pending := s.pendingDisk, scheduled := [])
    case Boot(ids) => s.(stage := if |s.memory.actions| == 0 then Idle else Running, scheduled := ids)
  }

  // ----- the invariant

  /** Every number in the map stands for the action decided at that position. */
  ghost predicate MapOk<A>(p: Pending<A>, decided: seq<A>) {
    && p.currentID <= |decided|
    && forall k: nat :: k in p.actionMap ==> k < p.currentID && p.actionMap[k] == decided[k]
  }

  /** Each saved action has entered the map once, under its own position. */
  ghost predicate TakenOk<A>(taken: seq<(nat, A)>, decided: seq<A>, n: nat) {
    && |taken| == n <= |decided|
    && forall i :: 0 <= i < n ==> taken[i] == (i, decided[i])
  }

  /** The state on disk holds the actions decided last, and its counter their
      position; the runner is at most those actions behind. */
  ghost predicate DiskOk<A>(disk: Keyper<A>, decided: seq<A>, currentID: nat) {
    && |decided| == disk.counter + |disk.actions|
    && decided[disk.counter..] == disk.actions
    && disk.counter <= currentID <= |decided|
  }

  /** Nothing is scheduled twice between two starts. */
  ghost predicate ScheduledOk(scheduled: seq<nat>, currentID: nat) {
    && (forall i :: 0 <= i < |scheduled| ==> scheduled[i] < currentID)
    && (forall i, j :: 0 <= i < j < |scheduled| ==> scheduled[i] != scheduled[j])
  }

  /** Where the keyper is idle, everything decided has been taken over. */
  ghost predicate MemoryOk<A>(s: Sys<A>) {
    match s.stage
    case Idle => s.memory == Ran(s.disk) && s.pendingDisk.currentID == |s.decided|
    case Decided => s.memory.counter == |s.decided| == s.pendingDisk.currentID
    case Running => s.memory == s.disk
    case Saving(_) => s.memory == s.disk
    case Booting => s.memory == s.disk
  }

  /** While saving, memory is ahead of disk by the actions just taken over. */
  ghost predicate PendingOk<A>(s: Sys<A>) {
    if s.stage.Saving? then
      var n := s.pendingDisk.currentID;
      && n <= |s.decided| && s.stage.rest == s.decided[n..]
      && s.pending == s.pendingDisk.(actionMap := PutAll(s.pendingDisk.actionMap, n, s.stage.rest),
                                     currentID := |s.decided|)
    else s.pending == s.pendingDisk
  }

  ghost predicate Inv<A>(s: Sys<A>) {
    && DiskOk(s.disk, s.decided, s.pendingDisk.currentID)
    && MapOk(s.pendingDisk, s.decided)
    && TakenOk(s.taken, s.decided, s.pendingDisk.currentID)
    && ScheduledOk(s.scheduled, s.pendingDisk.currentID)
    && PendingOk(s)
    && MemoryOk(s)
  }

  /** The "wrong id" panic is unreachable, and so is the one for left-over actions. */
  lemma NeverPanics<A>(s: Sys<A>, step: Step<A>)
    requires Inv(s) && Enabled(s, step)
    ensures !Panics(s, step)
  {
  }

  lemma SuffixOfSuffix<A>(s: seq<A>, c: nat, n: nat)
    requires c <= n <= |s|
    ensures s[c..][n - c..] == s[n..]
  {
  }

  lemma RunKeeps<A>(s: Sys<A>)
    requires Inv(s) && s.stage == Running
    ensures Inv(Next(s, RunActions))
  {
    SuffixOfSuffix(s.decided, s.disk.counter, s.pendingDisk.currentID);
  }

  lemma MapGrows<A>(p: Pending<A>, decided: seq<A>)
    requires MapOk(p, decided)
    ensures MapOk(p.(actionMap := PutAll(p.actionMap, p.currentID, decided[p.currentID..]), currentID := |decided|),
                  decided)
  {
    PutAllAt(p.actionMap, p.currentID, decided[p.currentID..]);
  }

  lemma TakenGrows<A>(taken: seq<(nat, A)>, decided: seq<A>, n: nat)
    requires TakenOk(taken, decided, n)
    ensures TakenOk(taken + Numbered(n, decided[n..]), decided, |decided|)
  {
  }

  lemma ScheduledGrows(scheduled: seq<nat>, n: nat, m: nat)
    requires ScheduledOk(scheduled, n)
    ensures ScheduledOk(scheduled + Numbers(n, m), n + m)
  {
  }

  lemma SavePendingKeeps<A>(s: Sys<A>)
    requires Inv(s) && s.stage.Saving?
    ensures Inv(Next(s, SavePending))
  {
    MapGrows(s.pendingDisk, s.decided);
    TakenGrows(s.taken, s.decided, s.pendingDisk.currentID);
    ScheduledGrows(s.scheduled, s.pendingDisk.currentID, |s.stage.rest|);
  }

  lemma SaveStateKeeps<A>(s: Sys<A>)
    requires Inv(s) && s.stage == Decided
    ensures Inv(Next(s, SaveState))
  {
    assert (s.decided + s.memory.actions)[|s.decided|..] == s.memory.actions;
  }

  lemma StepKeepsInv<A>(s: Sys<A>, step: Step<A>)
    requires Inv(s) && Enabled(s, step)
    ensures !Panics(s, step) && Inv(Next(s, step))
  {
    NeverPanics(s, step);
    match step {
      case RunActions => RunKeeps(s);
      case SavePending => SavePendingKeeps(s);
      case SaveState => SaveStateKeeps(s);
      case Boot(ids) => assert forall i :: 0 <= i < |ids| ==> ids[i] in s.pending.actionMap;
      case _ =>
    }
  }

  // ----- runs

  /** A run from the start: every step is enabled and leads to the next state. A run
      that panics ends there. */
  ghost predicate IsRun<A>(states: seq<Sys<A>>, steps: seq<Step<A>>) {
    && |states| == |steps| + 1 && states[0] == Start()
    && forall i :: 0 <= i < |steps| ==> StepOk(states, steps, i)
  }

  ghost predicate StepOk<A>(states: seq<Sys<A>>, steps: seq<Step<A>>, i: nat)
    requires |states| == |steps| + 1 && i < |steps|
  {
    Enabled(states[i], steps[i]) && !Panics(states[i], steps[i]) && states[i + 1] == Next(states[i], steps[i])
  }

  lemma {:induction false} RunKeepsInv<A>(states: seq<Sys<A>>, steps: seq<Step<A>>, n: nat)
    requires IsRun(states, steps) && n <= |steps|
    ensures Inv(states[n])
  {
    if n > 0 {
      RunKeepsInv(states, steps, n - 1);
      assert StepOk(states, steps, n - 1);
      StepKeepsInv(states[n - 1], steps[n - 1]);
    }
  }

  /** Exactly-once numbering: however the run was interrupted, the actions that have
      entered the map are the decided ones, each once and under its own position; when
      the keyper is idle that is all of them; and no step of the run can panic. */
  lemma ExactlyOnce<A>(states: seq<Sys<A>>, steps: seq<Step<A>>, next: Step<A>)
    requires IsRun(states, steps)
    ensures var s := states[|steps|];
      && (Enabled(s, next) ==> !Panics(s, next))
      && |s.taken| <= |s.decided|
      && (forall i :: 0 <= i < |s.taken| ==> s.taken[i] == (i, s.decided[i]))
      && (s.stage == Idle ==> |s.taken| == |s.decided|)
      && (forall k: nat :: k in s.pendingDisk.actionMap ==>
            k < |s.taken| && s.pendingDisk.actionMap[k] == s.decided[k])
      && (forall i, j :: 0 <= i < j < |s.scheduled| ==> s.scheduled[i] != s.scheduled[j])
  {
    RunKeepsInv(states, steps, |steps|);
    if Enabled(states[|steps|], next) {
      NeverPanics(states[|steps|], next);
    }
  }
}
