/** The validator set as a map from keys to voting power, and the updates that turn
    one set into the next. */
module Validators {
  import opened Addresses

  /** An ed25519 key, as bytes. */
  type Key = seq<nat>

  type Powermap = map<Key, int>

  datatype ValidatorUpdate = ValidatorUpdate(key: Key, power: int)

  // ----- the order of keys

  /** Byte-wise comparison, as in bytes.Compare. */
  predicate Less(a: Key, b: Key) {
    if b == [] then false
    else if a == [] then true
    else a[0] < b[0] || (a[0] == b[0] && Less(a[1..], b[1..]))
  }

  lemma {:induction false} LessTotal(a: Key, b: Key)
    ensures a == b || Less(a, b) || Less(b, a)
    ensures !(Less(a, b) && (Less(b, a) || a == b))
  {
    if a != [] && b != [] {
      LessTotal(a[1..], b[1..]);
      assert a == [a[0]] + a[1..] && b == [b[0]] + b[1..];
    }
  }

  lemma {:induction false} LessTransitive(a: Key, b: Key, c: Key)
    requires Less(a, b) && Less(b, c)
    ensures Less(a, c)
  {
    if a != [] {
      if a[0] == b[0] == c[0] {
        LessTransitive(a[1..], b[1..], c[1..]);
      }
    }
  }

  predicate KeySorted(us: seq<ValidatorUpdate>) {
    forall i, j :: 0 <= i < j < |us| ==> Less(us[i].key, us[j].key)
  }

  // ----- lists of updates

  ghost predicate Has(us: seq<ValidatorUpdate>, k: Key) {
    exists i :: 0 <= i < |us| && us[i].key == k
  }

  /** The list has an entry for each key of the map, with its power. */
  ghost predicate Lists(us: seq<ValidatorUpdate>, pm: Powermap) {
    && (forall i :: 0 <= i < |us| ==> us[i].key in pm && us[i].power == pm[us[i].key])
    && (forall k :: k in pm ==> Has(us, k))
  }

  lemma FirstIsLeast(us: seq<ValidatorUpdate>, vs: seq<ValidatorUpdate>, pm: Powermap)
    requires KeySorted(us) && KeySorted(vs) && Lists(us, pm) && Lists(vs, pm) && us != []
    ensures vs != [] && us[0] == vs[0]
  {
    assert us[0].key in pm && Has(vs, us[0].key);
    var i :| 0 <= i < |vs| && vs[i].key == us[0].key;
    assert vs[0].key in pm && Has(us, vs[0].key);
    var j :| 0 <= j < |us| && us[j].key == vs[0].key;
    LessTotal(us[0].key, vs[0].key);
  }

  lemma RestLists(us: seq<ValidatorUpdate>, pm: Powermap)
    requires KeySorted(us) && Lists(us, pm) && us != []
    ensures KeySorted(us[1..]) && Lists(us[1..], pm - {us[0].key})
  {
    forall i | 0 <= i < |us[1..]|
      ensures us[1..][i].key in pm - {us[0].key}
    {
      LessTotal(us[0].key, us[i + 1].key);
    }
    forall k | k in pm - {us[0].key}
      ensures Has(us[1..], k)
    {
      assert Has(us, k);
      var i :| 0 <= i < |us| && us[i].key == k;
      assert us[1..][i - 1].key == k;
    }
  }

  /** The sorted list is determined by the map, not by the order in which the map is
      walked. */
  lemma {:induction false} SortedListUnique(us: seq<ValidatorUpdate>, vs: seq<ValidatorUpdate>, pm: Powermap)
    requires KeySorted(us) && KeySorted(vs) && Lists(us, pm) && Lists(vs, pm)
    ensures us == vs
    decreases |us|
  {
    if us == [] {
      if vs != [] {
        FirstIsLeast(vs, us, pm);
      }
    } else {
      FirstIsLeast(us, vs, pm);
      RestLists(us, pm);
      RestLists(vs, pm);
      SortedListUnique(us[1..], vs[1..], pm - {us[0].key});
      assert us == [us[0]] + us[1..] && vs == [vs[0]] + vs[1..];
    }
  }

  /** Where a new key belongs in a sorted list. */
  function Position(us: seq<ValidatorUpdate>, key: Key): (n: nat)
    ensures n <= |us|
  {
    if us == [] || Less(us[|us| - 1].key, key) then |us| else Position(us[..|us| - 1], key)
  }

  lemma {:induction false} PositionSorts(us: seq<ValidatorUpdate>, key: Key)
    requires KeySorted(us) && forall i :: 0 <= i < |us| ==> us[i].key != key
    ensures forall i :: 0 <= i < Position(us, key) ==> Less(us[i].key, key)
    ensures forall i :: Position(us, key) <= i < |us| ==> Less(key, us[i].key)
  {
    if us != [] {
      var n := |us| - 1;
      LessTotal(us[n].key, key);
      if Less(us[n].key, key) {
        forall i | 0 <= i < n
          ensures Less(us[i].key, key)
        {
          LessTransitive(us[i].key, us[n].key, key);
        }
      } else {
        PositionSorts(us[..n], key);
      }
    }
  }

  function Inserted(us: seq<ValidatorUpdate>, u: ValidatorUpdate): seq<ValidatorUpdate> {
    var n := Position(us, u.key);
    us[..n] + [u] + us[n..]
  }

  lemma InsertedSorted(us: seq<ValidatorUpdate>, u: ValidatorUpdate)
    requires KeySorted(us) && forall i :: 0 <= i < |us| ==> us[i].key != u.key
    ensures KeySorted(Inserted(us, u))
  {
    PositionSorts(us, u.key);
  }

  lemma InsertedLists(us: seq<ValidatorUpdate>, pm: Powermap, u: ValidatorUpdate)
    requires Lists(us, pm) && u.key !in pm
    ensures Lists(Inserted(us, u), pm[u.key := u.power])
  {
    var n, vs, pm' := Position(us, u.key), Inserted(us, u), pm[u.key := u.power];
    forall k | k in pm'
      ensures Has(vs, k)
    {
      if k == u.key {
        assert vs[n].key == k;
      } else {
        assert Has(us, k);
        var i :| 0 <= i < |us| && us[i].key == k;
        assert vs[if i < n then i else i + 1].key == k;
      }
    }
  }

  /** The updates for a map, sorted by key. Sorting in place is done by inserting each
      entry where it belongs. */
  method ValidatorUpdates(pm: Powermap) returns (us: seq<ValidatorUpdate>)
    ensures KeySorted(us) && Lists(us, pm)
  {
    us := [];
    var rest := pm.Keys;
    ghost var done: Powermap := map[];
    while rest != {}
      invariant rest <= pm.Keys && done == map k | k in pm && k !in rest :: pm[k]
      invariant KeySorted(us) && Lists(us, done)
      decreases rest
    {
      var k :| k in rest;
      InsertedLists(us, done, ValidatorUpdate(k, pm[k]));
      InsertedSorted(us, ValidatorUpdate(k, pm[k]));
      us := Inserted(us, ValidatorUpdate(k, pm[k]));
      done := done[k := pm[k]];
      rest := rest - {k};
    }
    assert done == pm;
  }

  // ----- differences

  /** Keys that are gone get power 0; keys whose power differs, where a missing key
      counts as 0, get their new power. */
  function DiffPowermaps(oldpm: Powermap, newpm: Powermap): Powermap {
    map k | k in oldpm.Keys + newpm.Keys
      && (k !in newpm || Power(oldpm, k) != newpm[k]) ::
      if k in newpm then newpm[k] else 0
  }

  method ComputeDiff(oldpm: Powermap, newpm: Powermap) returns (res: Powermap)
    ensures res == DiffPowermaps(oldpm, newpm)
  {
    res := map[];
    var rest := oldpm.Keys;
    while rest != {}
      invariant rest <= oldpm.Keys && res == map k | k in oldpm && k !in rest && k !in newpm :: 0
      decreases rest
    {
      var v :| v in rest;
      rest := rest - {v};
      if v !in newpm {
        res := res[v := 0];
      }
    }
    res := AddChanges(oldpm, newpm, res);
  }

  /** The second loop. */
  method AddChanges(oldpm: Powermap, newpm: Powermap, removed: Powermap) returns (res: Powermap)
    ensures res == removed + map k | k in newpm && Power(oldpm, k) != newpm[k] :: newpm[k]
  {
    res := removed;
    var rest := newpm.Keys;
    while rest != {}
      invariant rest <= newpm.Keys && res.Keys >= removed.Keys
      invariant forall k :: k in res <==> k in removed || (k in newpm && k !in rest && Power(oldpm, k) != newpm[k])
      invariant forall k :: k in res ==>
        res[k] == if k in newpm && k !in rest && Power(oldpm, k) != newpm[k] then newpm[k] else removed[k]
      decreases rest
    {
      var v :| v in rest;
      rest := rest - {v};
      if Power(oldpm, v) != newpm[v] {
        res := res[v := newpm[v]];
      }
    }
  }

  /** Reading a Go map: a missing key has power 0. */
  function Power(pm: Powermap, k: Key): int {
    if k in pm then pm[k] else 0
  }

  /** What Tendermint does with an update: power 0 removes, otherwise it sets. */
  function ApplyUpdate(pm: Powermap, u: ValidatorUpdate): Powermap {
    if u.power == 0 then pm - {u.key} else pm[u.key := u.power]
  }

  function ApplyUpdates(pm: Powermap, us: seq<ValidatorUpdate>): Powermap {
    if us == [] then pm else ApplyUpdate(ApplyUpdates(pm, us[..|us| - 1]), us[|us| - 1])
  }

  /** Updates with distinct keys can be read key by key. */
  lemma {:induction false} ApplyUpdatesAt(pm: Powermap, us: seq<ValidatorUpdate>, k: Key)
    requires forall i, j :: 0 <= i < j < |us| ==> us[i].key != us[j].key
    ensures (forall i :: 0 <= i < |us| ==> us[i].key != k) ==>
      (k in ApplyUpdates(pm, us) <==> k in pm) && (k in pm ==> ApplyUpdates(pm, us)[k] == pm[k])
    ensures forall i :: 0 <= i < |us| && us[i].key == k ==>
      (k in ApplyUpdates(pm, us) <==> us[i].power != 0)
      && (us[i].power != 0 ==> ApplyUpdates(pm, us)[k] == us[i].power)
  {
    if us != [] {
      ApplyUpdatesAt(pm, us[..|us| - 1], k);
    }
  }

  lemma SortedKeysDiffer(us: seq<ValidatorUpdate>)
    requires KeySorted(us)
    ensures forall i, j :: 0 <= i < j < |us| ==> us[i].key != us[j].key
  {
    forall i, j | 0 <= i < j < |us|
      ensures us[i].key != us[j].key
    {
      LessTotal(us[i].key, us[j].key);
    }
  }

  lemma UpdateAt(oldpm: Powermap, newpm: Powermap, us: seq<ValidatorUpdate>, k: Key)
    requires KeySorted(us) && Lists(us, DiffPowermaps(oldpm, newpm))
    ensures k in ApplyUpdates(oldpm, us)
      <==> if k in DiffPowermaps(oldpm, newpm) then k in newpm && newpm[k] != 0 else k in oldpm
    ensures k in ApplyUpdates(oldpm, us) ==>
      ApplyUpdates(oldpm, us)[k] == if k in DiffPowermaps(oldpm, newpm) then newpm[k] else oldpm[k]
  {
    SortedKeysDiffer(us);
    ApplyUpdatesAt(oldpm, us, k);
    var d := DiffPowermaps(oldpm, newpm);
    if k in d {
      assert Has(us, k);
      var i :| 0 <= i < |us| && us[i].key == k;
      assert us[i].power == d[k];
    }
  }

  /** The update list that turns one set into the next. */
  ghost predicate UpdatesFor(oldpm: Powermap, newpm: Powermap, us: seq<ValidatorUpdate>) {
    KeySorted(us) && Lists(us, DiffPowermaps(oldpm, newpm))
  }

  /** No key of the new set has power 0, unless it had before. */
  ghost predicate Representable(oldpm: Powermap, newpm: Powermap) {
    forall k :: k in newpm && newpm[k] == 0 ==> k in oldpm && oldpm[k] == 0
  }

  /** The sorted updates turn the old validator set into the new one, exactly if the new
      one has no key of power 0 that the old one lacks. */
  lemma UpdatesRefineExactly(oldpm: Powermap, newpm: Powermap, us: seq<ValidatorUpdate>)
    requires UpdatesFor(oldpm, newpm, us)
    ensures ApplyUpdates(oldpm, us) == newpm <==> Representable(oldpm, newpm)
  {
    var r := ApplyUpdates(oldpm, us);
    if Representable(oldpm, newpm) {
      forall k
        ensures k in r <==> k in newpm
        ensures k in r ==> r[k] == newpm[k]
      {
        UpdateAt(oldpm, newpm, us, k);
      }
    } else {
      var k :| k in newpm && newpm[k] == 0 && !(k in oldpm && oldpm[k] == 0);
      UpdateAt(oldpm, newpm, us, k);
    }
  }

  ghost predicate AllPositive(pm: Powermap) {
    forall k :: k in pm ==> pm[k] > 0
  }

  // ----- genesis

  /** The powermap of a list of validators; a key listed twice gets the sum. */
  function FromList(us: seq<ValidatorUpdate>): Powermap {
    if us == [] then map[]
    else
      var pm, u := FromList(us[..|us| - 1]), us[|us| - 1];
      pm[u.key := Power(pm, u.key) + u.power]
  }

  /** For validators with distinct keys and positive powers it is the set Tendermint
      starts from. */
  lemma {:induction false} GenesisAgrees(us: seq<ValidatorUpdate>)
    requires forall i, j :: 0 <= i < j < |us| ==> us[i].key != us[j].key
    requires forall i :: 0 <= i < |us| ==> us[i].power > 0
    ensures FromList(us) == ApplyUpdates(map[], us) && AllPositive(FromList(us))
    ensures forall k :: k in FromList(us) ==> Has(us, k)
  {
    if us != [] {
      var n := |us| - 1;
      GenesisAgrees(us[..n]);
      assert us[n].key !in FromList(us[..n]) by {
        assert !Has(us[..n], us[n].key);
      }
      forall k | k in FromList(us)
        ensures Has(us, k)
      {
        if k == us[n].key {
          assert us[n].key == k;
        } else {
          assert Has(us[..n], k);
          var i :| 0 <= i < n && us[..n][i].key == k;
          assert us[i].key == k;
        }
      }
    }
  }

  // ----- the powermap of a set of keypers

  const POWER: int := 10

  /** Each keyper adds its power to its registered key, or to a placeholder. */
  function MakePowermap(keypers: seq<Address>, identities: map<Address, Key>, placeholder: Key): Powermap {
    if keypers == [] then map[]
    else
      var n := |keypers| - 1;
      var pm := MakePowermap(keypers[..n], identities, placeholder);
      var pk := if keypers[n] in identities then identities[keypers[n]] else placeholder;
      pm[pk := Power(pm, pk) + POWER]
  }

  method ComputePowermap(keypers: seq<Address>, identities: map<Address, Key>, placeholder: Key) returns (pm: Powermap)
    ensures pm == MakePowermap(keypers, identities, placeholder)
  {
    pm := map[];
    for i := 0 to |keypers|
      invariant pm == MakePowermap(keypers[..i], identities, placeholder)
    {
      assert keypers[..i + 1][..i] == keypers[..i];
      var k := keypers[i];
      if k in identities {
        pm := pm[identities[k] := Power(pm, identities[k]) + POWER];
      } else {
        pm := pm[placeholder := Power(pm, placeholder) + POWER];
      }
    }
    assert keypers[..|keypers|] == keypers;
  }

  /** The positions of the keypers that are registered under the key. */
  ghost function RegisteredAs(keypers: seq<Address>, identities: map<Address, Key>, k: Key): set<nat> {
    set i | 0 <= i < |keypers| && keypers[i] in identities && identities[keypers[i]] == k
  }

  /** The positions of the keypers that are not registered. */
  ghost function Unregistered(keypers: seq<Address>, identities: map<Address, Key>): set<nat> {
    set i | 0 <= i < |keypers| && keypers[i] !in identities
  }

  /** How many keypers a key stands for. */
  ghost function Stands(keypers: seq<Address>, identities: map<Address, Key>, placeholder: Key, k: Key): nat {
    |RegisteredAs(keypers, identities, k)| + if k == placeholder then |Unregistered(keypers, identities)| else 0
  }

  lemma OneMore(keypers: seq<Address>, identities: map<Address, Key>, k: Key)
    requires keypers != []
    ensures var n := |keypers| - 1;
      && RegisteredAs(keypers, identities, k) ==
           RegisteredAs(keypers[..n], identities, k)
           + (if keypers[n] in identities && identities[keypers[n]] == k then {n} else {})
      && Unregistered(keypers, identities) ==
           Unregistered(keypers[..n], identities) + (if keypers[n] !in identities then {n} else {})
  {
  }

  /** Whose key gets the power: ten for each keyper registered under it, and the placeholder
      ten for each keyper that is not registered. No other key has any. */
  lemma {:induction false} PowersAre(keypers: seq<Address>, identities: map<Address, Key>, placeholder: Key, k: Key)
    ensures var pm := MakePowermap(keypers, identities, placeholder);
      && Power(pm, k) == POWER * Stands(keypers, identities, placeholder, k)
      && (k in pm <==> Stands(keypers, identities, placeholder, k) > 0)
  {
    if keypers != [] {
      PowersAre(keypers[..|keypers| - 1], identities, placeholder, k);
      OneMore(keypers, identities, k);
    }
  }

  /** The sum of the powers of some keys. */
  ghost function Total(pm: Powermap, keys: set<Key>): int
    requires keys <= pm.Keys
    decreases |keys|
  {
    if keys == {} then 0
    else
      var k :| k in keys;
      pm[k] + Total(pm, keys - {k})
  }

  lemma {:induction false} TotalRemove(pm: Powermap, keys: set<Key>, k: Key)
    requires keys <= pm.Keys && k in keys
    ensures Total(pm, keys) == pm[k] + Total(pm, keys - {k})
    decreases |keys|
  {
    var j :| j in keys && Total(pm, keys) == pm[j] + Total(pm, keys - {j});
    if j != k {
      TotalRemove(pm, keys - {j}, k);
      assert keys - {j} - {k} == keys - {k} - {j};
      TotalRemove(pm, keys - {k}, j);
    }
  }

  lemma {:induction false} TotalSame(a: Powermap, b: Powermap, keys: set<Key>)
    requires keys <= a.Keys && keys <= b.Keys && forall k :: k in keys ==> a[k] == b[k]
    ensures Total(a, keys) == Total(b, keys)
    decreases |keys|
  {
    if keys != {} {
      var j :| j in keys && Total(a, keys) == a[j] + Total(a, keys - {j});
      TotalSame(a, b, keys - {j});
      TotalRemove(b, keys, j);
    }
  }

  lemma TotalSet(pm: Powermap, k: Key, p: int)
    ensures Total(pm[k := p], pm[k := p].Keys) == Total(pm, pm.Keys) - Power(pm, k) + p
  {
    var pm' := pm[k := p];
    var others := pm.Keys - {k};
    assert pm'.Keys - {k} == others;
    TotalRemove(pm', pm'.Keys, k);
    TotalSame(pm, pm', others);
    if k in pm {
      TotalRemove(pm, pm.Keys, k);
    } else {
      assert pm.Keys == others;
    }
  }

  /** Power is conserved: ten for each keyper, registered or not, and never zero. */
  lemma {:induction false} PowerConserved(keypers: seq<Address>, identities: map<Address, Key>, placeholder: Key)
    ensures var pm := MakePowermap(keypers, identities, placeholder);
      Total(pm, pm.Keys) == POWER * |keypers| && AllPositive(pm)
  {
    if keypers != [] {
      var n := |keypers| - 1;
      PowerConserved(keypers[..n], identities, placeholder);
      var pm := MakePowermap(keypers[..n], identities, placeholder);
      var pk := if keypers[n] in identities then identities[keypers[n]] else placeholder;
      TotalSet(pm, pk, Power(pm, pk) + POWER);
    }
  }
}
