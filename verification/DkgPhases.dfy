/** What a DKG takes from messages that come in any order, between its own steps: everything
    it holds comes from a message of its eon in time, stays, and is settled after its phase. */
module DkgPhases {
  import opened Outcome
  import opened Groups
  import opened Feldman
  import opened DistributedKeyGeneration

  /** An incoming message, or a step of the keyper itself. */
  datatype Op =
    | CommitmentOp(eon: nat, sender: nat, gammas: Gammas)
    | EvalOp(eon: nat, sender: nat, receiver: nat, eval: int)
    | AccusationOp(eon: nat, key: AccusationKey)
    | ApologyOp(eon: nat, key: AccusationKey, eval: int)
    | Deal(polynomial: Polynomial)
    | NextPhase

  /** The senders are known, and the keyper deals at the beginning only. */
  predicate Possible(s: State, op: Op)
    requires s.pub.numKeypers == |s.evals| && s.keyper < s.pub.numKeypers
  {
    match op
    case CommitmentOp(_, sender, _) => sender < s.pub.numKeypers
    case EvalOp(_, sender, _, _) => sender < s.pub.numKeypers
    case Deal(_) => s.phase == Off && s.evals[s.keyper].None?
    case NextPhase => s.phase in {Dealing, Accusing, Apologizing}
    case _ => true
  }

  function Following(p: Phase): Phase {
    match p
    case Off => Dealing
    case Dealing => Accusing
    case Accusing => Apologizing
    case Apologizing => Finalized
    case Finalized => Finalized
  }

  function Apply(s: State, op: Op): (t: State)
    requires s.Valid()
    ensures t.Valid() && t.eon == s.eon && t.keyper == s.keyper
    ensures t.pub.(commitments := s.pub.commitments, accusations := s.pub.accusations, apologies := s.pub.apologies) == s.pub
  {
    if !Possible(s, op) then s
    else
      match op
      case CommitmentOp(eon, sender, gammas) => After(s, HandlePolyCommitment(s, eon, sender, gammas))
      case EvalOp(eon, sender, receiver, eval) => After(s, HandlePolyEval(s, eon, sender, receiver, eval))
      case AccusationOp(eon, key) => After(s, HandleAccusation(s, eon, key))
      case ApologyOp(eon, key, eval) => After(s, HandleApology(s, eon, key, eval))
      case Deal(p) =>
        s.(phase := Dealing, polynomial := Some(p),
           evals := s.evals[s.keyper := Some(PolyValue(p, KeyperX(s.keyper)) % s.pub.q)])
      case NextPhase => s.(phase := Following(s.phase))
  }

  function Run(s: State, ops: seq<Op>): (t: State)
    requires s.Valid()
    ensures t.Valid() && t.eon == s.eon && t.keyper == s.keyper
    ensures t.pub.(commitments := s.pub.commitments, accusations := s.pub.accusations, apologies := s.pub.apologies) == s.pub
    decreases |ops|
  {
    if ops == [] then s else Apply(Run(s, ops[..|ops| - 1]), ops[|ops| - 1])
  }

  // ----- what is there stays

  ghost predicate Kept(s: State, t: State)
    requires s.Valid() && t.Valid() && s.pub.numKeypers == t.pub.numKeypers
  {
    && Rank(s.phase) <= Rank(t.phase)
    && (forall d :: 0 <= d < s.pub.numKeypers && s.pub.commitments[d].Some? ==> t.pub.commitments[d] == s.pub.commitments[d])
    && (forall d :: 0 <= d < s.pub.numKeypers && s.evals[d].Some? ==> t.evals[d] == s.evals[d])
    && s.pub.accusations <= t.pub.accusations
    && (forall key :: key in s.pub.apologies ==> key in t.pub.apologies && t.pub.apologies[key] == s.pub.apologies[key])
  }

  /** What belongs to phases that are over is settled. */
  ghost predicate Settled(s: State, t: State)
    requires s.Valid() && t.Valid()
  {
    && (Rank(s.phase) > Rank(Dealing) ==> t.pub.commitments == s.pub.commitments && t.evals == s.evals)
    && (Rank(s.phase) > Rank(Accusing) ==> t.pub.accusations == s.pub.accusations)
    && (Rank(s.phase) > Rank(Apologizing) ==> t == s)
  }

  lemma ApplyKeeps(s: State, op: Op)
    requires s.Valid()
    ensures Kept(s, Apply(s, op)) && Settled(s, Apply(s, op))
  {
  }

  /** Whatever comes in: nothing is taken back, and what belongs to a phase that is over does
      not change any more. A finished DKG stays as it is. */
  lemma {:induction false} PhasesSettle(s: State, ops: seq<Op>)
    requires s.Valid()
    ensures Kept(s, Run(s, ops)) && Settled(s, Run(s, ops))
    decreases |ops|
  {
    if ops != [] {
      var n := |ops| - 1;
      PhasesSettle(s, ops[..n]);
      ApplyKeeps(Run(s, ops[..n]), ops[n]);
      KeptTwice(s, Run(s, ops[..n]), Run(s, ops));
    }
  }

  lemma KeptTwice(s: State, t: State, u: State)
    requires s.Valid() && t.Valid() && u.Valid() && s.pub.numKeypers == t.pub.numKeypers == u.pub.numKeypers
    requires Kept(s, t) && Kept(t, u) && Settled(s, t) && Settled(t, u)
    ensures Kept(s, u) && Settled(s, u)
  {
  }

  // ----- where it comes from

  /** The operation came before the phase was over. */
  ghost predicate CameAt(s: State, ops: seq<Op>, i: nat, op: Op, phase: Phase)
    requires s.Valid() && i < |ops|
  {
    ops[i] == op && Rank(Run(s, ops[..i]).phase) <= Rank(phase)
  }

  ghost predicate Came(s: State, ops: seq<Op>, op: Op, phase: Phase)
    requires s.Valid()
  {
    exists i :: 0 <= i < |ops| && CameAt(s, ops, i, op, phase)
  }

  /** The keyper's own value comes from the polynomial that it deals. */
  ghost predicate EvalCame(s: State, ops: seq<Op>, d: nat, v: int)
    requires s.Valid()
  {
    || (ValidEval(s.pub.q, v) && Came(s, ops, EvalOp(s.eon, d, s.keyper, v), Dealing))
    || (d == s.keyper && exists p :: Came(s, ops, Deal(p), Off) && v == PolyValue(p, KeyperX(d)) % s.pub.q)
  }

  ghost predicate CommitmentsCame(s: State, ops: seq<Op>, t: State)
    requires s.Valid() && t.Valid() && s.pub.numKeypers == t.pub.numKeypers
  {
    forall d :: 0 <= d < s.pub.numKeypers && s.pub.commitments[d].None? && t.pub.commitments[d].Some? ==>
      && |t.pub.commitments[d].value| == s.pub.threshold
      && Came(s, ops, CommitmentOp(s.eon, d, t.pub.commitments[d].value), Dealing)
  }

  ghost predicate EvalsCame(s: State, ops: seq<Op>, t: State)
    requires s.Valid() && t.Valid() && s.pub.numKeypers == t.pub.numKeypers
  {
    forall d :: 0 <= d < s.pub.numKeypers && s.evals[d].None? && t.evals[d].Some? ==> EvalCame(s, ops, d, t.evals[d].value)
  }

  ghost predicate AccusationsCame(s: State, ops: seq<Op>, t: State)
    requires s.Valid()
  {
    forall key :: key in t.pub.accusations && key !in s.pub.accusations ==> Came(s, ops, AccusationOp(s.eon, key), Accusing)
  }

  ghost predicate ApologiesCame(s: State, ops: seq<Op>, t: State)
    requires s.Valid()
  {
    forall key :: key in t.pub.apologies && key !in s.pub.apologies ==>
      && ValidEval(s.pub.q, t.pub.apologies[key])
      && Came(s, ops, ApologyOp(s.eon, key, t.pub.apologies[key]), Apologizing)
  }

  ghost predicate AllCame(s: State, ops: seq<Op>, t: State)
    requires s.Valid() && t.Valid() && s.pub.numKeypers == t.pub.numKeypers
  {
    CommitmentsCame(s, ops, t) && EvalsCame(s, ops, t) && AccusationsCame(s, ops, t) && ApologiesCame(s, ops, t)
  }

  lemma CameLater(s: State, ops: seq<Op>, next: Op, op: Op, phase: Phase)
    requires s.Valid() && Came(s, ops, op, phase)
    ensures Came(s, ops + [next], op, phase)
  {
    var i :| 0 <= i < |ops| && CameAt(s, ops, i, op, phase);
    assert (ops + [next])[..i] == ops[..i];
    assert CameAt(s, ops + [next], i, op, phase);
  }

  lemma CameNow(s: State, ops: seq<Op>, op: Op, phase: Phase)
    requires s.Valid() && Rank(Run(s, ops).phase) <= Rank(phase)
    ensures Came(s, ops + [op], op, phase)
  {
    assert (ops + [op])[..|ops|] == ops;
    assert CameAt(s, ops + [op], |ops|, op, phase);
  }

  lemma EvalCameLater(s: State, ops: seq<Op>, next: Op, d: nat, v: int)
    requires s.Valid() && EvalCame(s, ops, d, v)
    ensures EvalCame(s, ops + [next], d, v)
  {
    if ValidEval(s.pub.q, v) && Came(s, ops, EvalOp(s.eon, d, s.keyper, v), Dealing) {
      CameLater(s, ops, next, EvalOp(s.eon, d, s.keyper, v), Dealing);
    } else {
      var p :| Came(s, ops, Deal(p), Off) && v == PolyValue(p, KeyperX(d)) % s.pub.q;
      CameLater(s, ops, next, Deal(p), Off);
    }
  }

  lemma NextCommitmentsCame(s: State, ops: seq<Op>, op: Op)
    requires s.Valid() && CommitmentsCame(s, ops, Run(s, ops))
    ensures CommitmentsCame(s, ops + [op], Apply(Run(s, ops), op))
  {
    var t, u := Run(s, ops), Apply(Run(s, ops), op);
    forall d | 0 <= d < s.pub.numKeypers && s.pub.commitments[d].None? && u.pub.commitments[d].Some?
      ensures |u.pub.commitments[d].value| == s.pub.threshold
      ensures Came(s, ops + [op], CommitmentOp(s.eon, d, u.pub.commitments[d].value), Dealing)
    {
      if t.pub.commitments[d].Some? {
        ApplyKeeps(t, op);
        CameLater(s, ops, op, CommitmentOp(s.eon, d, t.pub.commitments[d].value), Dealing);
      } else {
        assert op == CommitmentOp(s.eon, d, u.pub.commitments[d].value);
        CameNow(s, ops, op, Dealing);
      }
    }
  }

  lemma NextEvalsCame(s: State, ops: seq<Op>, op: Op)
    requires s.Valid() && EvalsCame(s, ops, Run(s, ops))
    ensures EvalsCame(s, ops + [op], Apply(Run(s, ops), op))
  {
    var t, u := Run(s, ops), Apply(Run(s, ops), op);
    forall d | 0 <= d < s.pub.numKeypers && s.evals[d].None? && u.evals[d].Some?
      ensures EvalCame(s, ops + [op], d, u.evals[d].value)
    {
      if t.evals[d].Some? {
        ApplyKeeps(t, op);
        EvalCameLater(s, ops, op, d, t.evals[d].value);
      } else if op.Deal? {
        CameNow(s, ops, op, Off);
      } else {
        assert op == EvalOp(s.eon, d, s.keyper, u.evals[d].value);
        CameNow(s, ops, op, Dealing);
      }
    }
  }

  lemma NextAccusationsCame(s: State, ops: seq<Op>, op: Op)
    requires s.Valid() && AccusationsCame(s, ops, Run(s, ops))
    ensures AccusationsCame(s, ops + [op], Apply(Run(s, ops), op))
  {
    var t, u := Run(s, ops), Apply(Run(s, ops), op);
    forall key | key in u.pub.accusations && key !in s.pub.accusations
      ensures Came(s, ops + [op], AccusationOp(s.eon, key), Accusing)
    {
      if key in t.pub.accusations {
        CameLater(s, ops, op, AccusationOp(s.eon, key), Accusing);
      } else {
        assert op == AccusationOp(s.eon, key);
        CameNow(s, ops, op, Accusing);
      }
    }
  }

  lemma NextApologiesCame(s: State, ops: seq<Op>, op: Op)
    requires s.Valid() && ApologiesCame(s, ops, Run(s, ops))
    ensures ApologiesCame(s, ops + [op], Apply(Run(s, ops), op))
  {
    var t, u := Run(s, ops), Apply(Run(s, ops), op);
    forall key | key in u.pub.apologies && key !in s.pub.apologies
      ensures ValidEval(s.pub.q, u.pub.apologies[key])
      ensures Came(s, ops + [op], ApologyOp(s.eon, key, u.pub.apologies[key]), Apologizing)
    {
      if key in t.pub.apologies {
        ApplyKeeps(t, op);
        CameLater(s, ops, op, ApologyOp(s.eon, key, t.pub.apologies[key]), Apologizing);
      } else {
        assert op == ApologyOp(s.eon, key, u.pub.apologies[key]);
        CameNow(s, ops, op, Apologizing);
      }
    }
  }

  /** Whatever comes in: what the DKG holds came in a message of its eon, was in range, and
      came before its phase was over. */
  lemma {:induction false} NothingInvented(s: State, ops: seq<Op>)
    requires s.Valid()
    ensures AllCame(s, ops, Run(s, ops))
    decreases |ops|
  {
    if ops != [] {
      var n := |ops| - 1;
      NothingInvented(s, ops[..n]);
      assert ops[..n] + [ops[n]] == ops;
      NextCommitmentsCame(s, ops[..n], ops[n]);
      NextEvalsCame(s, ops[..n], ops[n]);
      NextAccusationsCame(s, ops[..n], ops[n]);
      NextApologiesCame(s, ops[..n], ops[n]);
    }
  }

  // ----- nothing is lost

  /** The state has an entry where the operation puts one. */
  predicate Noted(t: State, op: Op)
    requires t.Valid()
  {
    match op
    case CommitmentOp(_, d, _) => d < t.pub.numKeypers && t.pub.commitments[d].Some?
    case EvalOp(_, d, _, _) => d < t.pub.numKeypers && t.evals[d].Some?
    case AccusationOp(_, key) => key in t.pub.accusations
    case ApologyOp(_, key, _) => key in t.pub.apologies
    case _ => true
  }

  /** The message is for this keyper and in order. */
  predicate Good(s: State, op: Op)
    requires s.Valid()
  {
    match op
    case CommitmentOp(eon, d, g) => eon == s.eon && d < s.pub.numKeypers && |g| == s.pub.threshold
    case EvalOp(eon, d, receiver, v) => eon == s.eon && d < s.pub.numKeypers && receiver == s.keyper && ValidEval(s.pub.q, v)
    case AccusationOp(eon, _) => eon == s.eon
    case ApologyOp(eon, _, v) => eon == s.eon && ValidEval(s.pub.q, v)
    case _ => false
  }

  /** The phase by which the message must have come. */
  function Deadline(op: Op): Phase {
    match op
    case AccusationOp(_, _) => Accusing
    case ApologyOp(_, _, _) => Apologizing
    case _ => Dealing
  }

  lemma NotedNow(s: State, op: Op)
    requires s.Valid() && Good(s, op) && Rank(s.phase) <= Rank(Deadline(op))
    ensures Noted(Apply(s, op), op)
  {
  }

  lemma NotedLater(t: State, u: State, op: Op)
    requires t.Valid() && u.Valid() && t.pub.numKeypers == u.pub.numKeypers && Kept(t, u) && Noted(t, op)
    ensures Noted(u, op)
  {
  }

  lemma RunOne(s: State, ops: seq<Op>, op: Op)
    requires s.Valid()
    ensures Run(s, ops + [op]) == Apply(Run(s, ops), op)
  {
    assert (ops + [op])[..|ops|] == ops;
  }

  /** Every good message that comes in time leaves an entry for good: its own, or that of an
      earlier one. */
  lemma NothingLost(s: State, before: seq<Op>, op: Op, after: seq<Op>)
    requires s.Valid() && Good(s, op) && Rank(Run(s, before).phase) <= Rank(Deadline(op))
    ensures Noted(Run(s, before + [op] + after), op)
  {
    var t := Apply(Run(s, before), op);
    NotedNow(Run(s, before), op);
    RunOne(s, before, op);
    RunOn(s, before + [op], after);
    PhasesSettle(t, after);
    NotedLater(t, Run(t, after), op);
  }

  lemma {:induction false} RunOn(s: State, ops: seq<Op>, more: seq<Op>)
    requires s.Valid()
    ensures Run(s, ops + more) == Run(Run(s, ops), more)
    decreases |more|
  {
    if more == [] {
      assert ops + more == ops;
    } else {
      var n := |more| - 1;
      assert (ops + more)[..|ops + more| - 1] == ops + more[..n];
      RunOn(s, ops, more[..n]);
    }
  }
}
