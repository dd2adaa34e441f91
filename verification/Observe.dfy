/** What a keyper sees of the shielder chain: eons with their height-stamped DKG
    events, read through a binary search and thinned out by filters. */
module Observe {
  import opened Outcome

  /** A message with the height of the block it was published in. */
  datatype At<+T> = At(height: int, msg: T)

  predicate Sorted<T>(events: seq<At<T>>) {
    forall i, j :: 0 <= i < j < |events| ==> events[i].height <= events[j].height
  }

  // ----- reading from a height

  /** The events at or above the height, in order. */
  function From<T>(events: seq<At<T>>, height: int): seq<At<T>> {
    if events == [] then []
    else
      var n := |events| - 1;
      From(events[..n], height) + if events[n].height >= height then [events[n]] else []
  }

  /** Go's sort.Search over the condition "height >= h". */
  method Search<T>(events: seq<At<T>>, h: int) returns (idx: nat)
    requires Sorted(events)
    ensures idx <= |events|
    ensures forall i :: 0 <= i < idx ==> events[i].height < h
    ensures forall i :: idx <= i < |events| ==> events[i].height >= h
  {
    var i, j := 0, |events|;
    while i < j
      invariant 0 <= i <= j <= |events|
      invariant forall k :: 0 <= k < i ==> events[k].height < h
      invariant forall k :: j <= k < |events| ==> events[k].height >= h
    {
      var m := (i + j) / 2;
      if !(events[m].height >= h) {
        i := m + 1;
      } else {
        j := m;
      }
    }
    return i;
  }

  lemma {:induction false} FromSplit<T>(events: seq<At<T>>, idx: nat, h: int)
    requires idx <= |events|
    requires forall i :: 0 <= i < idx ==> events[i].height < h
    requires forall i :: idx <= i < |events| ==> events[i].height >= h
    ensures From(events, h) == events[idx..]
  {
    if events != [] {
      var n := |events| - 1;
      if idx <= n {
        FromSplit(events[..n], idx, h);
        assert events[idx..] == events[..n][idx..] + [events[n]];
      } else {
        FromSplit(events[..n], n, h);
      }
    }
  }

  /** Each of the four getters: on sorted lists the binary search returns what a
      plain filter by height would. */
  method Get<T>(events: seq<At<T>>, syncHeight: int) returns (r: seq<At<T>>)
    requires Sorted(events)
    ensures r == From(events, syncHeight)
  {
    var idx := Search(events, syncHeight);
    FromSplit(events, idx, syncHeight);
    if idx == |events| {
      return [];
    }
    return events[idx..];
  }

  lemma {:induction false} FromConcat<T>(a: seq<At<T>>, b: seq<At<T>>, h: int)
    ensures From(a + b, h) == From(a, h) + From(b, h)
  {
    if b == [] {
      assert a + b == a;
    } else {
      var n := |b| - 1;
      assert (a + b)[..|a + b| - 1] == a + b[..n];
      FromConcat(a, b[..n], h);
    }
  }

  lemma {:induction false} FromFrom<T>(events: seq<At<T>>, h: int, h': int)
    requires h <= h'
    ensures From(From(events, h), h') == From(events, h')
  {
    if events != [] {
      var n := |events| - 1;
      FromFrom(events[..n], h, h');
      var last := if events[n].height >= h then [events[n]] else [];
      FromConcat(From(events[..n], h), last, h');
      assert [events[n]][..0] == [];
    }
  }

  lemma {:induction false} FromSorted<T>(events: seq<At<T>>, h: int)
    requires Sorted(events)
    ensures Sorted(From(events, h))
    ensures forall e :: e in From(events, h) ==> e in events && e.height >= h
  {
    if events != [] {
      var n := |events| - 1;
      FromSorted(events[..n], h);
    }
  }

  // ----- filtering is invisible to later reads

  /** New events arrive and filters are applied, in any order. */
  datatype ListOp<+T> = Append(event: At<T>) | Filter(syncHeight: int)

  function Apply<T>(events: seq<At<T>>, ops: seq<ListOp<T>>): seq<At<T>>
    decreases ops
  {
    if ops == [] then events
    else
      match ops[0]
      case Append(e) => Apply(events + [e], ops[1..])
      case Filter(h) => Apply(From(events, h), ops[1..])
  }

  /** The same without the filters. */
  function Unfiltered<T>(events: seq<At<T>>, ops: seq<ListOp<T>>): seq<At<T>>
    decreases ops
  {
    if ops == [] then events
    else Unfiltered(if ops[0].Append? then events + [ops[0].event] else events, ops[1..])
  }

  /** Reading at or above every filter height gives the same list as on the state
      that was never filtered, however filters and new events were interleaved. */
  lemma {:induction false} FilterInvisible<T>(events: seq<At<T>>, full: seq<At<T>>, ops: seq<ListOp<T>>, h: int)
    requires From(events, h) == From(full, h)
    requires forall i :: 0 <= i < |ops| && ops[i].Filter? ==> ops[i].syncHeight <= h
    ensures From(Apply(events, ops), h) == From(Unfiltered(full, ops), h)
    decreases ops
  {
    if ops != [] {
      match ops[0] {
        case Append(e) =>
          FromConcat(events, [e], h);
          FromConcat(full, [e], h);
          FilterInvisible(events + [e], full + [e], ops[1..], h);
        case Filter(g) =>
          assert ops[0].syncHeight <= h;
          FromFrom(events, g, h);
          FilterInvisible(From(events, g), full, ops[1..], h);
      }
    }
  }

  /** Filtering and appending keep a list sorted, so the binary search stays valid. */
  lemma {:induction false} OpsKeepSorted<T>(events: seq<At<T>>, full: seq<At<T>>, ops: seq<ListOp<T>>)
    requires Sorted(events) && Sorted(Unfiltered(full, ops))
    requires forall e :: e in events ==> e in full
    ensures Sorted(Apply(events, ops))
    decreases ops
  {
    if ops != [] {
      match ops[0] {
        case Append(e) =>
          UnfilteredPrefix(full + [e], ops[1..]);
          forall i | 0 <= i < |events|
            ensures events[i].height <= e.height
          {
            assert events[i] in full;
            var j :| 0 <= j < |full| && full[j] == events[i];
            assert (full + [e])[j] == full[j] && (full + [e])[|full|] == e;
          }
          OpsKeepSorted(events + [e], full + [e], ops[1..]);
        case Filter(h) =>
          FromSorted(events, h);
          OpsKeepSorted(From(events, h), full, ops[1..]);
      }
    }
  }

  lemma {:induction false} UnfilteredPrefix<T>(events: seq<At<T>>, ops: seq<ListOp<T>>)
    ensures events <= Unfiltered(events, ops)
    decreases ops
  {
    if ops != [] {
      UnfilteredPrefix(if ops[0].Append? then events + [ops[0].event] else events, ops[1..]);
    }
  }

  // ----- eons

  /** An eon with its four lists of DKG events. */
  datatype Eon<C, E, A, P> = Eon(
    eon: nat,
    startHeight: int,
    startBatchIndex: nat,
    commitments: seq<At<C>>,
    polyEvals: seq<At<E>>,
    accusations: seq<At<A>>,
    apologies: seq<At<P>>)
  {
    predicate SortedLists() {
      Sorted(commitments) && Sorted(polyEvals) && Sorted(accusations) && Sorted(apologies)
    }

    /** The eon with the events below the height dropped. */
    function Filtered(syncHeight: int): Eon<C, E, A, P> {
      this.(commitments := From(commitments, syncHeight), polyEvals := From(polyEvals, syncHeight),
            accusations := From(accusations, syncHeight), apologies := From(apologies, syncHeight))
    }
  }

  method ApplyFilter<C, E, A, P>(eon: Eon<C, E, A, P>, syncHeight: int) returns (clone: Eon<C, E, A, P>)
    requires eon.SortedLists()
    ensures clone == eon.Filtered(syncHeight) && clone.SortedLists()
  {
    var commitments := Get(eon.commitments, syncHeight);
    var polyEvals := Get(eon.polyEvals, syncHeight);
    var accusations := Get(eon.accusations, syncHeight);
    var apologies := Get(eon.apologies, syncHeight);
    clone := Eon(eon.eon, eon.startHeight, eon.startBatchIndex, commitments, polyEvals, accusations, apologies);
    FromSorted(eon.commitments, syncHeight);
    FromSorted(eon.polyEvals, syncHeight);
    FromSorted(eon.accusations, syncHeight);
    FromSorted(eon.apologies, syncHeight);
  }
}
