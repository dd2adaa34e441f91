/** Looking up addresses in lists of keypers. */
module Addresses {
  import opened Outcome

  type Address = nat

  /** The first position of an address. */
  function FindAddressIndex(addresses: seq<Address>, a: Address): (r: Option<nat>)
    ensures r.Some? ==> r.value < |addresses| && addresses[r.value] == a
    ensures r.Some? ==> forall k :: 0 <= k < r.value ==> addresses[k] != a
    ensures r.None? ==> a !in addresses
  {
    if addresses == [] then None
    else if addresses[0] == a then Some(0)
    else
      var r := FindAddressIndex(addresses[1..], a);
      if r.Some? then Some(r.value + 1) else None
  }

  predicate Distinct(addresses: seq<Address>) {
    forall i, j :: 0 <= i < j < |addresses| ==> addresses[i] != addresses[j]
  }

  /** Among distinct addresses every one is found where it is. */
  lemma IndexOf(addresses: seq<Address>, i: nat)
    requires Distinct(addresses) && i < |addresses|
    ensures FindAddressIndex(addresses, addresses[i]) == Some(i)
  {
    var j := FindAddressIndex(addresses, addresses[i]).value;
    assert addresses[j] == addresses[i];
  }

  method FindIndex(addresses: seq<Address>, a: Address) returns (r: Option<nat>)
    ensures r == FindAddressIndex(addresses, a)
  {
    for i := 0 to |addresses|
      invariant forall k :: 0 <= k < i ==> addresses[k] != a
    {
      if addresses[i] == a {
        return Some(i);
      }
    }
    return None;
  }
}
