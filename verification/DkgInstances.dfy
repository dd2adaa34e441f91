/** Which messages of a DKG the replicated app takes: each keyper speaks once to everybody,
    and once to every other keyper. */
module DkgInstances {
  import opened Outcome
  import opened Addresses

  /** Messages with their sender. The points of a commitment, and what evaluations hold, do
      not matter here; only how many there are. */
  datatype Message =
    | PolyEval(sender: Address, eon: nat, receivers: seq<Address>, numEvals: nat)
    | PolyCommitment(sender: Address, eon: nat)
    | Accusation(sender: Address, eon: nat, accused: seq<Address>)
    | Apology(sender: Address, eon: nat, accusers: seq<Address>, numEvals: nat)

  datatype Instance = Instance(
    keypers: seq<Address>,
    eon: nat,
    submissionsClosed: bool,
    accusationsClosed: bool,
    apologiesClosed: bool,
    polyEvalsSeen: set<(Address, Address)>,
    polyCommitmentsSeen: set<Address>,
    accusationsSeen: set<Address>,
    apologiesSeen: set<Address>)

  function NewInstance(keypers: seq<Address>, eon: nat): Instance {
    Instance(keypers, eon, false, false, false, {}, {}, {}, {})
  }

  // ----- parsing

  method EnsureUniqueAddresses(addresses: seq<Address>) returns (ok: bool)
    ensures ok <==> Distinct(addresses)
  {
    var seen: set<Address> := {};
    for i := 0 to |addresses|
      invariant Distinct(addresses[..i])
      invariant forall a :: a in seen <==> a in addresses[..i]
    {
      if addresses[i] in seen {
        var j :| 0 <= j < i && addresses[j] == addresses[i];
        return false;
      }
      seen := seen + {addresses[i]};
    }
    assert addresses[..|addresses|] == addresses;
    return true;
  }

  predicate Parses(m: Message) {
    match m
    case PolyEval(_, _, receivers, numEvals) => |receivers| == numEvals && Distinct(receivers)
    case PolyCommitment(_, _) => true
    case Accusation(_, _, accused) => Distinct(accused)
    case Apology(_, _, accusers, numEvals) => |accusers| == numEvals && Distinct(accusers)
  }

  /** Keypers other than the sender. */
  predicate Others(keypers: seq<Address>, sender: Address, l: seq<Address>) {
    forall k :: 0 <= k < |l| ==> l[k] in keypers && l[k] != sender
  }

  /** The message has the form it should have, whatever came before it. */
  predicate WellFormed(keypers: seq<Address>, eon: nat, m: Message) {
    && Parses(m) && m.eon == eon && m.sender in keypers
    && match m
       case PolyEval(sender, _, receivers, _) => Others(keypers, sender, receivers)
       case PolyCommitment(_, _) => true
       case Accusation(sender, _, accused) => Others(keypers, sender, accused)
       case Apology(sender, _, accusers, _) => Others(keypers, sender, accusers)
  }

  // ----- registering

  predicate Closed(d: Instance, m: Message) {
    match m
    case PolyEval(_, _, _, _) => d.submissionsClosed
    case PolyCommitment(_, _) => d.submissionsClosed
    case Accusation(_, _, _) => d.accusationsClosed
    case Apology(_, _, _, _) => d.apologiesClosed
  }

  predicate AlreadySeen(d: Instance, m: Message) {
    match m
    case PolyEval(sender, _, receivers, _) => exists k :: 0 <= k < |receivers| && (sender, receivers[k]) in d.polyEvalsSeen
    case PolyCommitment(sender, _) => sender in d.polyCommitmentsSeen
    case Accusation(sender, _, _) => sender in d.accusationsSeen
    case Apology(sender, _, _, _) => sender in d.apologiesSeen
  }

  function Seen(d: Instance, m: Message): Instance {
    match m
    case PolyEval(sender, _, receivers, _) => d.(polyEvalsSeen := d.polyEvalsSeen + set r | r in receivers :: (sender, r))
    case PolyCommitment(sender, _) => d.(polyCommitmentsSeen := d.polyCommitmentsSeen + {sender})
    case Accusation(sender, _, _) => d.(accusationsSeen := d.accusationsSeen + {sender})
    case Apology(sender, _, _, _) => d.(apologiesSeen := d.apologiesSeen + {sender})
  }

  predicate Registers(d: Instance, m: Message) {
    WellFormed(d.keypers, d.eon, m) && !Closed(d, m) && !AlreadySeen(d, m)
  }

  function After(d: Instance, m: Message): Instance {
    if Registers(d, m) then Seen(d, m) else d
  }

  class DKGInstance {
    const keypers: seq<Address>
    const eon: nat
    var submissionsClosed: bool
    var accusationsClosed: bool
    var apologiesClosed: bool
    var polyEvalsSeen: set<(Address, Address)>
    var polyCommitmentsSeen: set<Address>
    var accusationsSeen: set<Address>
    var apologiesSeen: set<Address>

    ghost function View(): Instance
      reads this
    {
      Instance(keypers, eon, submissionsClosed, accusationsClosed, apologiesClosed,
               polyEvalsSeen, polyCommitmentsSeen, accusationsSeen, apologiesSeen)
    }

    constructor (keypers: seq<Address>, eon: nat)
      ensures View() == NewInstance(keypers, eon)
    {
      this.keypers, this.eon := keypers, eon;
      submissionsClosed, accusationsClosed, apologiesClosed := false, false, false;
      polyEvalsSeen, polyCommitmentsSeen, accusationsSeen, apologiesSeen := {}, {}, {}, {};
    }

    /** The first check is that the eon and the sender are right, and that it is not too late. */
    method CheckSender(msgEon: nat, closed: bool, sender: Address) returns (err: Option<string>)
      ensures err.None? <==> msgEon == eon && !closed && sender in keypers
    {
      if msgEon != eon {
        return Some("msg is from another eon");
      }
      if closed {
        return Some("already closed");
      }
      var index := FindIndex(keypers, sender);
      if index.None? {
        return Some("sender is not a keyper");
      }
      return None;
    }

    method CheckOthers(sender: Address, l: seq<Address>) returns (err: Option<string>)
      ensures err.None? <==> Others(keypers, sender, l)
    {
      for i := 0 to |l|
        invariant Others(keypers, sender, l[..i])
      {
        var index := FindIndex(keypers, l[i]);
        if index.None? {
          return Some("not a keyper");
        }
        if l[i] == sender {
          return Some("the sender itself");
        }
      }
      return None;
    }

    method RegisterPolyEvalMsg(m: Message) returns (err: Option<string>)
      requires m.PolyEval? && Parses(m)
      modifies this`polyEvalsSeen
      ensures err.None? <==> Registers(old(View()), m)
      ensures View() == After(old(View()), m)
    {
      err := CheckSender(m.eon, submissionsClosed, m.sender);
      if err.Some? {
        return;
      }
      err := CheckOthers(m.sender, m.receivers);
      if err.Some? {
        return;
      }
      for i := 0 to |m.receivers|
        invariant forall k :: 0 <= k < i ==> (m.sender, m.receivers[k]) !in polyEvalsSeen
      {
        if (m.sender, m.receivers[i]) in polyEvalsSeen {
          return Some("polynomial evaluation already present");
        }
      }
      for i := 0 to |m.receivers|
        invariant polyEvalsSeen == old(polyEvalsSeen) + set r | r in m.receivers[..i] :: (m.sender, r)
      {
        assert m.receivers[..i + 1] == m.receivers[..i] + [m.receivers[i]];
        polyEvalsSeen := polyEvalsSeen + {(m.sender, m.receivers[i])};
      }
      assert m.receivers[..|m.receivers|] == m.receivers;
    }

    method RegisterPolyCommitmentMsg(m: Message) returns (err: Option<string>)
      requires m.PolyCommitment?
      modifies this`polyCommitmentsSeen
      ensures err.None? <==> Registers(old(View()), m)
      ensures View() == After(old(View()), m)
    {
      err := CheckSender(m.eon, submissionsClosed, m.sender);
      if err.Some? {
        return;
      }
      if m.sender in polyCommitmentsSeen {
        return Some("polynomial commitment already present");
      }
      polyCommitmentsSeen := polyCommitmentsSeen + {m.sender};
    }

    method RegisterAccusationMsg(m: Message) returns (err: Option<string>)
      requires m.Accusation? && Parses(m)
      modifies this`accusationsSeen
      ensures err.None? <==> Registers(old(View()), m)
      ensures View() == After(old(View()), m)
    {
      err := CheckSender(m.eon, accusationsClosed, m.sender);
      if err.Some? {
        return;
      }
      err := CheckOthers(m.sender, m.accused);
      if err.Some? {
        return;
      }
      if m.sender in accusationsSeen {
        return Some("accusation already present");
      }
      accusationsSeen := accusationsSeen + {m.sender};
    }

    method RegisterApologyMsg(m: Message) returns (err: Option<string>)
      requires m.Apology? && Parses(m)
      modifies this`apologiesSeen
      ensures err.None? <==> Registers(old(View()), m)
      ensures View() == After(old(View()), m)
    {
      err := CheckSender(m.eon, apologiesClosed, m.sender);
      if err.Some? {
        return;
      }
      err := CheckOthers(m.sender, m.accusers);
      if err.Some? {
        return;
      }
      if m.sender in apologiesSeen {
        return Some("apology already present");
      }
      apologiesSeen := apologiesSeen + {m.sender};
    }

    /** Prevents further evaluations and commitments. */
    method CloseSubmissions()
      modifies this`submissionsClosed
      ensures View() == old(View()).(submissionsClosed := true)
    {
      submissionsClosed := true;
    }

    method CloseAccusations()
      modifies this`accusationsClosed
      ensures View() == old(View()).(accusationsClosed := true)
    {
      accusationsClosed := true;
    }

    method CloseApologies()
      modifies this`apologiesClosed
      ensures View() == old(View()).(apologiesClosed := true)
    {
      apologiesClosed := true;
    }
  }

  // ----- over all messages

  /** The instance after some messages; nothing in the app ever closes one. */
  function Run(keypers: seq<Address>, eon: nat, msgs: seq<Message>): Instance {
    if msgs == [] then NewInstance(keypers, eon)
    else After(Run(keypers, eon, msgs[..|msgs| - 1]), msgs[|msgs| - 1])
  }

  /** The message at position i is taken. */
  predicate Takes(keypers: seq<Address>, eon: nat, msgs: seq<Message>, i: nat)
    requires i < |msgs|
  {
    Registers(Run(keypers, eon, msgs[..i]), msgs[i])
  }

  /** Both messages say the same kind of thing to the same keyper, or to everybody. */
  predicate Overlap(m: Message, m': Message) {
    m.sender == m'.sender &&
    match (m, m')
    case (PolyEval(_, _, receivers, _), PolyEval(_, _, receivers', _)) =>
      exists k :: 0 <= k < |receivers'| && receivers'[k] in receivers
    case (PolyCommitment(_, _), PolyCommitment(_, _)) => true
    case (Accusation(_, _, _), Accusation(_, _, _)) => true
    case (Apology(_, _, _, _), Apology(_, _, _, _)) => true
    case _ => false
  }

  lemma OnlyWhatIsTaken(keypers: seq<Address>, eon: nat, msgs: seq<Message>)
    ensures var d := Run(keypers, eon, msgs);
      d.keypers == keypers && d.eon == eon && !d.submissionsClosed && !d.accusationsClosed && !d.apologiesClosed
  {
  }

  /** A message that has been taken is remembered: what overlaps it counts as seen. */
  lemma SeenAfter(d: Instance, m: Message, m': Message)
    ensures AlreadySeen(Seen(d, m), m') <==> AlreadySeen(d, m') || Overlap(m, m')
  {
  }

  /** A message that has been taken overlaps this one. */
  predicate Covers(keypers: seq<Address>, eon: nat, msgs: seq<Message>, i: nat, m: Message)
    requires i < |msgs|
  {
    Takes(keypers, eon, msgs, i) && Overlap(msgs[i], m)
  }

  ghost predicate SomeOverlap(keypers: seq<Address>, eon: nat, msgs: seq<Message>, m: Message) {
    exists i :: 0 <= i < |msgs| && Covers(keypers, eon, msgs, i, m)
  }

  lemma TakesEarlier(keypers: seq<Address>, eon: nat, msgs: seq<Message>, n: nat, i: nat)
    requires i < n <= |msgs|
    ensures Takes(keypers, eon, msgs[..n], i) == Takes(keypers, eon, msgs, i)
  {
    assert msgs[..n][..i] == msgs[..i];
  }

  lemma CoversEarlier(keypers: seq<Address>, eon: nat, msgs: seq<Message>, n: nat, i: nat, m: Message)
    requires i < n <= |msgs|
    ensures Covers(keypers, eon, msgs[..n], i, m) == Covers(keypers, eon, msgs, i, m)
  {
    TakesEarlier(keypers, eon, msgs, n, i);
  }

  lemma OverlapWithOneMore(keypers: seq<Address>, eon: nat, msgs: seq<Message>, m: Message)
    requires msgs != []
    ensures var n := |msgs| - 1;
      SomeOverlap(keypers, eon, msgs, m) <==> SomeOverlap(keypers, eon, msgs[..n], m) || Covers(keypers, eon, msgs, n, m)
  {
    var n := |msgs| - 1;
    forall i | 0 <= i < n
      ensures Covers(keypers, eon, msgs[..n], i, m) == Covers(keypers, eon, msgs, i, m)
    {
      CoversEarlier(keypers, eon, msgs, n, i, m);
    }
  }

  /** What counts as seen is what overlaps a message taken before. */
  lemma {:induction false} SeenExactly(keypers: seq<Address>, eon: nat, msgs: seq<Message>, m: Message)
    ensures AlreadySeen(Run(keypers, eon, msgs), m) <==> SomeOverlap(keypers, eon, msgs, m)
  {
    if msgs != [] {
      var n := |msgs| - 1;
      SeenExactly(keypers, eon, msgs[..n], m);
      SeenAfter(Run(keypers, eon, msgs[..n]), msgs[n], m);
      OverlapWithOneMore(keypers, eon, msgs, m);
    }
  }

  lemma NoneCovers(keypers: seq<Address>, eon: nat, msgs: seq<Message>, i: nat)
    requires i < |msgs|
    ensures SomeOverlap(keypers, eon, msgs[..i], msgs[i])
      <==> exists j :: 0 <= j < i && Takes(keypers, eon, msgs, j) && Overlap(msgs[j], msgs[i])
  {
    forall j | 0 <= j < i
      ensures Covers(keypers, eon, msgs[..i], j, msgs[i]) == Covers(keypers, eon, msgs, j, msgs[i])
    {
      CoversEarlier(keypers, eon, msgs, i, j, msgs[i]);
    }
    if j :| 0 <= j < i && Takes(keypers, eon, msgs, j) && Overlap(msgs[j], msgs[i]) {
      assert Covers(keypers, eon, msgs[..i], j, msgs[i]);
    }
  }

  /** A message is taken exactly if it is well formed and overlaps none taken before. */
  lemma TakenExactly(keypers: seq<Address>, eon: nat, msgs: seq<Message>, i: nat)
    requires i < |msgs|
    ensures Takes(keypers, eon, msgs, i) <==>
      WellFormed(keypers, eon, msgs[i])
      && forall j :: 0 <= j < i && Takes(keypers, eon, msgs, j) ==> !Overlap(msgs[j], msgs[i])
  {
    OnlyWhatIsTaken(keypers, eon, msgs[..i]);
    SeenExactly(keypers, eon, msgs[..i], msgs[i]);
    NoneCovers(keypers, eon, msgs, i);
  }
}
