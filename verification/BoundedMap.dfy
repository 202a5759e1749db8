/**
 A map of bounded size that drops dead entries and, when it is still full, its oldest one: the shape shared
 by the two limiters of apps/api/src/auth. Iteration follows insertion order, so `keys` is kept beside the
 entries.
 */
module BoundedMap {

  datatype Table<V> = Table(entries: map<nat, V>, keys: seq<nat>) {
    ghost predicate Valid() {
      && (forall k :: k in entries <==> k in keys)
      && Distinct(keys)
    }
  }

  ghost predicate Distinct(keys: seq<nat>) {
    forall i, j | 0 <= i < j < |keys| :: keys[i] != keys[j]
  }

  function Kept<V>(entries: map<nat, V>, keys: seq<nat>, live: V -> bool): seq<nat> {
    if keys == [] then []
    else
      var last := keys[|keys| - 1];
      Kept(entries, keys[..|keys| - 1], live) + (if last in entries && live(entries[last]) then [last] else [])
  }

  lemma {:induction false} KeptSpec<V>(entries: map<nat, V>, keys: seq<nat>, live: V -> bool)
    ensures forall k :: k in Kept(entries, keys, live) <==> k in keys && k in entries && live(entries[k])
    ensures |Kept(entries, keys, live)| <= |keys|
    ensures Distinct(keys) ==> Distinct(Kept(entries, keys, live))
  {
    if keys != [] {
      KeptSpec(entries, keys[..|keys| - 1], live);
      assert keys == keys[..|keys| - 1] + [keys[|keys| - 1]];
    }
  }

  /** The dead entries among `keys`. */
  function Dead<V>(entries: map<nat, V>, keys: seq<nat>, live: V -> bool): set<nat> {
    set k | k in keys && k in entries && !live(entries[k])
  }

  /** What is left of the entries once those of `keys` have been looked at. */
  function Remaining<V>(entries: map<nat, V>, keys: seq<nat>, live: V -> bool): map<nat, V> {
    entries - Dead(entries, keys, live)
  }

  /** One step of the loop that sweeps. */
  lemma NextKey<V>(t: Table<V>, i: nat, live: V -> bool)
    requires i < |t.keys| && t.Valid()
    ensures t.keys[i] in Remaining(t.entries, t.keys[..i], live)
    ensures Remaining(t.entries, t.keys[..i], live)[t.keys[i]] == t.entries[t.keys[i]]
    ensures var kept := live(t.entries[t.keys[i]]);
            && Remaining(t.entries, t.keys[..i + 1], live)
               == Remaining(t.entries, t.keys[..i], live) - (if kept then {} else {t.keys[i]})
            && Kept(t.entries, t.keys[..i + 1], live)
               == Kept(t.entries, t.keys[..i], live) + (if kept then [t.keys[i]] else [])
  {
    assert t.keys[..i + 1][..i] == t.keys[..i] && t.keys[..i + 1] == t.keys[..i] + [t.keys[i]];
    assert Dead(t.entries, t.keys[..i + 1], live)
           == Dead(t.entries, t.keys[..i], live) + (if live(t.entries[t.keys[i]]) then {} else {t.keys[i]});
  }

  function Swept<V>(t: Table<V>, live: V -> bool): Table<V> {
    Table(Remaining(t.entries, t.keys, live), Kept(t.entries, t.keys, live))
  }

  lemma SweptValid<V>(t: Table<V>, live: V -> bool)
    requires t.Valid()
    ensures Swept(t, live).Valid() && |Swept(t, live).keys| <= |t.keys|
  {
    KeptSpec(t.entries, t.keys, live);
  }

  /** The position of the oldest entry, the first such one. */
  function Oldest<V>(entries: map<nat, V>, keys: seq<nat>, age: V -> int): (i: nat)
    requires keys != [] && forall k | k in keys :: k in entries
    ensures i < |keys|
    ensures forall j | 0 <= j < |keys| :: age(entries[keys[i]]) <= age(entries[keys[j]])
    ensures forall j | 0 <= j < i :: age(entries[keys[i]]) < age(entries[keys[j]])
  {
    var last := |keys| - 1;
    if last == 0 then 0
    else
      var i := Oldest(entries, keys[..last], age);
      if age(entries[keys[last]]) < age(entries[keys[i]]) then last else i
  }

  /** Among the first n keys the i-th has the oldest entry, the first such one. */
  ghost predicate IsOldest<V>(t: Table<V>, n: nat, i: nat, age: V -> int) {
    && i < n <= |t.keys| && (forall k | k in t.keys :: k in t.entries)
    && (forall j | 0 <= j < n :: age(t.entries[t.keys[i]]) <= age(t.entries[t.keys[j]]))
    && (forall j | 0 <= j < i :: age(t.entries[t.keys[i]]) < age(t.entries[t.keys[j]]))
  }

  lemma OldestFirst<V>(t: Table<V>, age: V -> int)
    requires t.Valid() && t.keys != []
    ensures IsOldest(t, 1, 0, age)
  {
  }

  /** One step of the loop that looks for the oldest entry. */
  lemma OldestNext<V>(t: Table<V>, n: nat, i: nat, age: V -> int)
    requires IsOldest(t, n, i, age) && n < |t.keys|
    ensures t.keys[n] in t.entries && t.keys[i] in t.entries
    ensures IsOldest(t, n + 1, if age(t.entries[t.keys[n]]) < age(t.entries[t.keys[i]]) then n else i, age)
  {
  }

  lemma OldestIs<V>(t: Table<V>, i: nat, age: V -> int)
    requires IsOldest(t, |t.keys|, i, age)
    ensures Oldest(t.entries, t.keys, age) == i
  {
  }

  function Evicted<V>(t: Table<V>, age: V -> int): Table<V>
    requires t.Valid()
  {
    if t.keys == [] then t
    else
      var i := Oldest(t.entries, t.keys, age);
      Table(t.entries - {t.keys[i]}, t.keys[..i] + t.keys[i + 1..])
  }

  /** Removing the i-th key. */
  lemma RemovedKey(keys: seq<nat>, i: nat)
    requires Distinct(keys) && i < |keys|
    ensures var after := keys[..i] + keys[i + 1..];
            Distinct(after) && forall k :: k in after <==> k in keys && k != keys[i]
  {
    var after := keys[..i] + keys[i + 1..];
    forall k | k in keys && k != keys[i] ensures k in after {
      var j :| 0 <= j < |keys| && keys[j] == k;
      assert after[if j < i then j else j - 1] == k;
    }
  }

  lemma EvictedSpec<V>(t: Table<V>, age: V -> int)
    requires t.Valid()
    ensures Evicted(t, age).Valid()
    ensures t.keys != [] ==> |Evicted(t, age).keys| == |t.keys| - 1
    ensures forall k | k in Evicted(t, age).entries :: k in t.entries && Evicted(t, age).entries[k] == t.entries[k]
  {
    if t.keys != [] {
      RemovedKey(t.keys, Oldest(t.entries, t.keys, age));
    }
  }

  /** The table just before a new key is stored: swept when full, and one entry poorer if it is still full. */
  function RoomMade<V>(t: Table<V>, cap: nat, live: V -> bool, age: V -> int): Table<V>
    requires t.Valid()
  {
    var swept := if |t.keys| >= cap then Swept(t, live) else t;
    SweptValid(t, live);
    if |swept.keys| >= cap then Evicted(swept, age) else swept
  }

  function Stored<V>(t: Table<V>, cap: nat, key: nat, value: V, live: V -> bool, age: V -> int): Table<V>
    requires t.Valid()
  {
    if key in t.entries then t.(entries := t.entries[key := value])
    else
      var room := RoomMade(t, cap, live, age);
      Table(room.entries[key := value], room.keys + [key])
  }

  /** A new key is always stored, so a limit of zero still holds one entry. */
  function Capacity(cap: nat): nat {
    if cap == 0 then 1 else cap
  }

  lemma RoomMadeSpec<V>(t: Table<V>, cap: nat, live: V -> bool, age: V -> int)
    requires t.Valid() && |t.keys| <= Capacity(cap)
    ensures var room := RoomMade(t, cap, live, age);
            && room.Valid() && |room.keys| < Capacity(cap)
            && forall k | k in room.entries :: k in t.entries && room.entries[k] == t.entries[k]
  {
    SweptValid(t, live);
    EvictedSpec(if |t.keys| >= cap then Swept(t, live) else t, age);
  }

  lemma StoredValid<V>(t: Table<V>, cap: nat, key: nat, value: V, live: V -> bool, age: V -> int)
    requires t.Valid() && |t.keys| <= Capacity(cap)
    ensures var stored := Stored(t, cap, key, value, live, age);
            && stored.Valid() && |stored.keys| <= Capacity(cap)
            && (forall k | k != key && k in stored.entries :: k in t.entries && stored.entries[k] == t.entries[k])
            && key in stored.entries && stored.entries[key] == value
  {
    if key !in t.entries {
      RoomMadeSpec(t, cap, live, age);
    }
  }

  /** Whether storing `key` costs the live entry of `victim` its place. */
  ghost predicate Evicts<V>(t: Table<V>, cap: nat, key: nat, live: V -> bool, age: V -> int, victim: nat)
    requires t.Valid()
  {
    SweptValid(t, live);
    && key !in t.entries && |t.keys| >= cap
    && |Swept(t, live).keys| >= cap && victim in Swept(t, live).entries && victim !in Evicted(Swept(t, live), age).entries
  }

  /** Storing a key loses a live entry of another only by evicting it. */
  lemma StoredKeepsLive<V>(t: Table<V>, cap: nat, key: nat, value: V, live: V -> bool, age: V -> int, other: nat)
    requires t.Valid() && |t.keys| <= Capacity(cap) && other != key && !Evicts(t, cap, key, live, age, other)
    requires other in t.entries && live(t.entries[other])
    ensures other in Stored(t, cap, key, value, live, age).entries
    ensures Stored(t, cap, key, value, live, age).entries[other] == t.entries[other]
  {
    SweptValid(t, live);
    StoredValid(t, cap, key, value, live, age);
  }

  function Without(keys: seq<nat>, key: nat): seq<nat> {
    if keys == [] then []
    else
      var last := keys[|keys| - 1];
      Without(keys[..|keys| - 1], key) + (if last == key then [] else [last])
  }

  lemma {:induction false} WithoutSpec(keys: seq<nat>, key: nat)
    ensures forall k :: k in Without(keys, key) <==> k in keys && k != key
    ensures |Without(keys, key)| <= |keys|
    ensures Distinct(keys) ==> Distinct(Without(keys, key))
  {
    if keys != [] {
      var front := keys[..|keys| - 1];
      WithoutSpec(front, key);
      assert Distinct(keys) ==> Distinct(front) && keys[|keys| - 1] !in Without(front, key);
      assert keys == keys[..|keys| - 1] + [keys[|keys| - 1]];
    }
  }

  /** Deleting one key. */
  function Deleted<V>(t: Table<V>, key: nat): Table<V> {
    Table(t.entries - {key}, Without(t.keys, key))
  }

  lemma DeletedValid<V>(t: Table<V>, key: nat)
    requires t.Valid()
    ensures Deleted(t, key).Valid() && |Deleted(t, key).keys| <= |t.keys|
  {
    WithoutSpec(t.keys, key);
  }
}
