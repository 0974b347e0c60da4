/**
 The Robin Hood hash table of the search index: open addressing over `1 << capacityClass`
 slots with wrap-around probing, displacement of entries that sit closer to their preferred
 slot, and doubling when nine tenths of the slots are taken.

 `RobinHood` states the pure theory of one table (a sequence of slots); `HashTables` is the
 class with the flat byte array and the parallel value array.
 */
module RobinHood {
  import opened Basics
  import opened Wrappers

  const KEY_LENGTH := 6

  type Key = k: seq<byte> | |k| == KEY_LENGTH witness [0, 0, 0, 0, 0, 0]

  datatype Slot<+V> = Free | Used(key: Key, value: V)

  /** The last four key bytes, read big-endian and reduced modulo the capacity. */
  function Preferred(k: Key, capacity: nat): (slot: nat)
    requires capacity > 0
    ensures slot < capacity
  {
    (k[2] * 0x100_0000 + k[3] * 0x1_0000 + k[4] * 0x100 + k[5]) % capacity
  }

  /** The number that the bytes spell, most significant byte first. */
  function BigEndian(bytes: seq<byte>): nat {
    if bytes == [] then 0 else 0x100 * BigEndian(bytes[..|bytes| - 1]) + bytes[|bytes| - 1]
  }

  lemma PreferredIsBigEndian(k: Key, capacity: nat)
    requires capacity > 0
    ensures Preferred(k, capacity) == BigEndian(k[2..]) % capacity
  {
    var b: seq<byte> := k[2..];
    OneMoreByte(b, 0);
    OneMoreByte(b, 1);
    OneMoreByte(b, 2);
    OneMoreByte(b, 3);
    assert b[..4] == b;
  }

  lemma OneMoreByte(b: seq<byte>, n: nat)
    requires n < |b|
    ensures BigEndian(b[..n + 1]) == 0x100 * BigEndian(b[..n]) + b[n]
  {
    assert b[..n + 1][..n] == b[..n];
  }

  /** How many probe steps lead from slot `from` to slot `to`, wrapping at the capacity. */
  function Distance(from: nat, to: nat, capacity: nat): (d: nat)
    requires from < capacity && to < capacity
    ensures d < capacity
  {
    if from <= to then to - from else capacity - from + to
  }

  function Next(slot: nat, capacity: nat): (next: nat)
    requires slot < capacity
    ensures next < capacity
  {
    if slot + 1 == capacity then 0 else slot + 1
  }

  /** The distance of slot `s` from the preferred slot of `k`. */
  function Probe<V>(t: seq<Slot<V>>, k: Key, s: nat): (d: nat)
    requires s < |t|
    ensures d < |t|
  {
    Distance(Preferred(k, |t|), s, |t|)
  }

  /** Every slot that a probe for `k` visits before `s` holds an entry at least as far from home. */
  ghost predicate Reaches<V>(t: seq<Slot<V>>, k: Key, s: nat)
    requires s < |t|
  {
    forall u | 0 <= u < |t| && Probe(t, k, u) < Probe(t, k, s) ::
      t[u].Used? && Probe(t, k, u) <= Probe(t, t[u].key, u)
  }

  ghost predicate Distinct<V>(t: seq<Slot<V>>) {
    forall i, j {:trigger t[i].key, t[j].key} | 0 <= i < j < |t| && t[i].Used? && t[j].Used? :: t[i].key != t[j].key
  }

  /** The invariant of the whole table. */
  ghost predicate WellPlaced<V>(t: seq<Slot<V>>) {
    && Distinct(t)
    && forall s {:trigger Reaches(t, t[s].key, s)} | 0 <= s < |t| && t[s].Used? :: Reaches(t, t[s].key, s)
  }

  ghost predicate Occurs<V>(t: seq<Slot<V>>, k: Key) {
    exists s :: 0 <= s < |t| && t[s].Used? && t[s].key == k
  }

  /** The used slots of `t` are exactly the pairs of `m`. */
  ghost predicate Holds<V>(t: seq<Slot<V>>, m: map<Key, V>) {
    && (forall s | 0 <= s < |t| && t[s].Used? :: t[s].key in m && m[t[s].key] == t[s].value)
    && (forall k {:trigger Occurs(t, k)} | k in m :: Occurs(t, k))
  }

  /** A probe for `k` standing at `slot` has not passed an entry with that key. */
  ghost predicate NotPassed<V>(t: seq<Slot<V>>, k: Key, slot: nat)
    requires slot < |t|
  {
    forall u | 0 <= u < |t| && t[u].Used? && t[u].key == k :: Probe(t, k, slot) <= Probe(t, k, u)
  }

  /**
   The state of an insertion: the table, the entry still in hand, the slot being looked at, and
   the map `goal` that the table must hold once the entry has found its place.
   */
  ghost predicate Carrying<V>(t: seq<Slot<V>>, k: Key, v: V, slot: nat, goal: map<Key, V>) {
    && slot < |t|
    && WellPlaced(t)
    && Reaches(t, k, slot)
    && NotPassed(t, k, slot)
    && k in goal && goal[k] == v
    && (forall s | 0 <= s < |t| && t[s].Used? && t[s].key != k ::
          t[s].key in goal && goal[t[s].key] == t[s].value)
    && (forall x {:trigger Occurs(t, x)} | x in goal && x != k :: Occurs(t, x))
  }

  /** A probe that meets a free slot, or an entry closer to home than itself, proves absence. */
  lemma ProbeProvesAbsence<V>(t: seq<Slot<V>>, k: Key, slot: nat)
    requires slot < |t| && WellPlaced(t) && NotPassed(t, k, slot)
    requires t[slot].Free? || Probe(t, t[slot].key, slot) < Probe(t, k, slot)
    ensures !Occurs(t, k)
  {
    forall s | 0 <= s < |t| && t[s].Used? ensures t[s].key != k {
      assert Reaches(t, t[s].key, s);
    }
  }

  /** Writing over a slot an entry at least as far from home shortens no probe sequence. */
  lemma OverwriteKeepsReach<V>(t: seq<Slot<V>>, k: Key, v: V, slot: nat, x: Key, s: nat)
    requires slot < |t| && s < |t| && Reaches(t, x, s)
    requires t[slot].Used? ==> Probe(t, t[slot].key, slot) <= Probe(t, k, slot)
    ensures Reaches(t[slot := Used(k, v)], x, s)
  {
    var r := t[slot := Used(k, v)];
    forall u | 0 <= u < |r| && Probe(r, x, u) < Probe(r, x, s)
      ensures r[u].Used? && Probe(r, x, u) <= Probe(r, r[u].key, u)
    {
      assert Probe(t, x, u) < Probe(t, x, s);
    }
  }

  lemma OverwriteKeepsPlacement<V>(t: seq<Slot<V>>, k: Key, v: V, slot: nat)
    requires slot < |t| && WellPlaced(t) && Reaches(t, k, slot)
    requires t[slot].Used? ==> Probe(t, t[slot].key, slot) <= Probe(t, k, slot)
    requires Occurs(t, k) ==> t[slot].Used? && t[slot].key == k
    ensures WellPlaced(t[slot := Used(k, v)])
  {
    var r := t[slot := Used(k, v)];
    assert Distinct(r) by {
      forall s | 0 <= s < |t| && s != slot && t[s].Used? ensures t[s].key != k {}
    }
    forall s | 0 <= s < |r| && r[s].Used? ensures Reaches(r, r[s].key, s) {
      OverwriteKeepsReach(t, k, v, slot, r[s].key, s);
    }
  }

  lemma OverwriteOccurs<V>(t: seq<Slot<V>>, k: Key, v: V, slot: nat, x: Key)
    requires slot < |t|
    requires x == k || (Occurs(t, x) && (t[slot].Used? ==> t[slot].key != x))
    ensures Occurs(t[slot := Used(k, v)], x)
  {
    var r := t[slot := Used(k, v)];
    if x == k {
      assert r[slot].key == x;
    } else {
      var s :| 0 <= s < |t| && t[s].Used? && t[s].key == x;
      assert r[s].key == x;
    }
  }

  lemma PlacedInFreeSlot<V>(t: seq<Slot<V>>, k: Key, v: V, slot: nat, goal: map<Key, V>)
    requires Carrying(t, k, v, slot, goal) && t[slot].Free?
    ensures !Occurs(t, k)
    ensures WellPlaced(t[slot := Used(k, v)]) && Holds(t[slot := Used(k, v)], goal)
  {
    ProbeProvesAbsence(t, k, slot);
    OverwriteKeepsPlacement(t, k, v, slot);
    forall x | x in goal ensures Occurs(t[slot := Used(k, v)], x) {
      OverwriteOccurs(t, k, v, slot, x);
    }
  }

  lemma ReplacedInPlace<V>(t: seq<Slot<V>>, k: Key, v: V, slot: nat, goal: map<Key, V>)
    requires Carrying(t, k, v, slot, goal) && t[slot].Used? && t[slot].key == k
    ensures WellPlaced(t[slot := Used(k, v)]) && Holds(t[slot := Used(k, v)], goal)
  {
    OverwriteKeepsPlacement(t, k, v, slot);
    forall x | x in goal ensures Occurs(t[slot := Used(k, v)], x) {
      OverwriteOccurs(t, k, v, slot, x);
    }
  }

  lemma CarryingAdvances<V>(t: seq<Slot<V>>, k: Key, v: V, slot: nat, goal: map<Key, V>)
    requires Carrying(t, k, v, slot, goal)
    requires t[slot].Used? && t[slot].key != k
    requires Probe(t, k, slot) <= Probe(t, t[slot].key, slot)
    requires HasFree(t)
    ensures Probe(t, k, Next(slot, |t|)) == Probe(t, k, slot) + 1
    ensures Carrying(t, k, v, Next(slot, |t|), goal)
  {
    var f :| 0 <= f < |t| && t[f].Free?;
    assert Probe(t, k, slot) < Probe(t, k, f);
  }

  /** The displaced entry continues from the slot it gave up. */
  lemma CarryingSwaps<V>(t: seq<Slot<V>>, k: Key, v: V, slot: nat, goal: map<Key, V>)
    requires Carrying(t, k, v, slot, goal)
    requires t[slot].Used? && t[slot].key != k
    requires Probe(t, t[slot].key, slot) < Probe(t, k, slot)
    ensures !Occurs(t, k) && !Occurs(t[slot := Used(k, v)], t[slot].key)
    ensures Carrying(t[slot := Used(k, v)], t[slot].key, t[slot].value, slot, goal)
  {
    ProbeProvesAbsence(t, k, slot);
    OverwriteKeepsPlacement(t, k, v, slot);
    var evicted := t[slot].key;
    assert Reaches(t, evicted, slot);
    OverwriteKeepsReach(t, k, v, slot, evicted, slot);
    forall x | x in goal && x != evicted ensures Occurs(t[slot := Used(k, v)], x) {
      OverwriteOccurs(t, k, v, slot, x);
    }
  }

  ghost predicate HasFree<V>(t: seq<Slot<V>>) {
    exists f :: 0 <= f < |t| && t[f].Free?
  }

  ghost function FreeSlot<V>(t: seq<Slot<V>>): (f: nat)
    requires HasFree(t)
    ensures f < |t| && t[f].Free?
  {
    var f :| 0 <= f < |t| && t[f].Free?;
    f
  }

  /** The probe loop of a lookup, standing at `slot` after `distance` steps. */
  function Lookup<V>(t: seq<Slot<V>>, k: Key, slot: nat, distance: nat): Option<V>
    requires slot < |t|
    decreases |t| - distance
  {
    if distance >= |t| then None
    else
      match t[slot]
      case Free => None
      case Used(otherKey, v) =>
        if otherKey == k then Some(v)
        else if Probe(t, otherKey, slot) < distance then None
        else Lookup(t, k, Next(slot, |t|), distance + 1)
  }

  lemma {:induction false} LookupFromSlot<V>(t: seq<Slot<V>>, m: map<Key, V>, k: Key, slot: nat)
    requires slot < |t| && WellPlaced(t) && Holds(t, m)
    requires Reaches(t, k, slot) && NotPassed(t, k, slot)
    ensures Lookup(t, k, slot, Probe(t, k, slot)) == if k in m then Some(m[k]) else None
    decreases |t| - Probe(t, k, slot)
  {
    assert k in m <==> Occurs(t, k);
    var d, next := Probe(t, k, slot), Next(slot, |t|);
    if t[slot].Free? || (t[slot].key != k && Probe(t, t[slot].key, slot) < d) {
      ProbeProvesAbsence(t, k, slot);
    } else if t[slot].key != k {
      if d + 1 == |t| {
        forall u | 0 <= u < |t| && t[u].Used? ensures t[u].key != k {
          assert Probe(t, k, u) < |t|;
        }
        assert Lookup(t, k, next, d + 1) == None;
      } else {
        assert Probe(t, k, next) == d + 1;
        LookupFromSlot(t, m, k, next);
      }
    }
  }

  /** Lookup refines map selection. */
  lemma LookupFinds<V>(t: seq<Slot<V>>, m: map<Key, V>, k: Key)
    requires |t| > 0 && WellPlaced(t) && Holds(t, m)
    ensures Lookup(t, k, Preferred(k, |t|), 0) == if k in m then Some(m[k]) else None
  {
    LookupFromSlot(t, m, k, Preferred(k, |t|));
  }

  /** Table and entry in hand after one more probe: exchanged when the resident is closer to home. */
  ghost function Exchanged<V>(t: seq<Slot<V>>, k: Key, v: V, slot: nat): (seq<Slot<V>>, Key, V)
    requires slot < |t| && t[slot].Used?
  {
    if Probe(t, t[slot].key, slot) < Probe(t, k, slot)
    then (t[slot := Used(k, v)], t[slot].key, t[slot].value)
    else (t, k, v)
  }

  lemma CarryingSteps<V>(t: seq<Slot<V>>, k: Key, v: V, slot: nat, goal: map<Key, V>, free: nat)
    requires Carrying(t, k, v, slot, goal) && t[slot].Used? && t[slot].key != k
    requires free < |t| && t[free].Free?
    ensures var (t', k', v') := Exchanged(t, k, v, slot);
      && t'[free].Free?
      && Carrying(t', k', v', Next(slot, |t|), goal)
      && Probe(t', k', Next(slot, |t|)) == Probe(t', k', slot) + 1
      && (Occurs(t', k') <==> Occurs(t, k))
    ensures Distance(Next(slot, |t|), free, |t|) < Distance(slot, free, |t|)
  {
    var (t', k', v') := Exchanged(t, k, v, slot);
    if t' != t {
      CarryingSwaps(t, k, v, slot, goal);
    }
    assert t'[free].Free?;
    CarryingAdvances(t', k', v', slot, goal);
  }

  lemma HoldsIsFunctional<V>(t: seq<Slot<V>>, m: map<Key, V>, m': map<Key, V>)
    requires Holds(t, m) && Holds(t, m')
    ensures m == m'
  {
    forall k | k in m ensures k in m' && m'[k] == m[k] {
      assert Occurs(t, k);
    }
    forall k | k in m' ensures k in m {
      assert Occurs(t, k);
    }
  }

  /** The keys in the used slots of `t`. */
  ghost function KeysOf<V>(t: seq<Slot<V>>): set<Key> {
    if t == [] then {}
    else
      var rest := KeysOf(t[..|t| - 1]);
      if t[|t| - 1].Used? then rest + {t[|t| - 1].key} else rest
  }

  ghost function UsedCount<V>(t: seq<Slot<V>>): nat {
    if t == [] then 0 else UsedCount(t[..|t| - 1]) + if t[|t| - 1].Used? then 1 else 0
  }

  lemma {:induction false} KeysOfOccur<V>(t: seq<Slot<V>>, k: Key)
    ensures k in KeysOf(t) <==> Occurs(t, k)
  {
    if t != [] {
      var n := |t| - 1;
      KeysOfOccur(t[..n], k);
      if Occurs(t[..n], k) {
        var s :| 0 <= s < n && t[..n][s].Used? && t[..n][s].key == k;
        assert t[s].key == k;
      }
      if Occurs(t, k) && !Occurs(t[..n], k) {
        forall s | 0 <= s < n && t[s].Used? ensures t[s].key != k {
          assert t[..n][s] == t[s];
        }
      }
    }
  }

  lemma {:induction false} DistinctKeysCount<V>(t: seq<Slot<V>>)
    requires Distinct(t)
    ensures |KeysOf(t)| == UsedCount(t) <= |t|
    ensures UsedCount(t) < |t| ==> HasFree(t)
  {
    if t != [] {
      var n := |t| - 1;
      DistinctKeysCount(t[..n]);
      if t[n].Used? {
        KeysOfOccur(t[..n], t[n].key);
        if UsedCount(t) < |t| {
          var f :| 0 <= f < n && t[..n][f].Free?;
          assert t[f].Free?;
        }
      }
    }
  }

  /** The number of pairs is the number of used slots; fewer pairs than slots leaves one free. */
  lemma SizeCountsSlots<V>(t: seq<Slot<V>>, m: map<Key, V>)
    requires Distinct(t) && Holds(t, m)
    ensures |m| == UsedCount(t) <= |t|
    ensures |m| < |t| ==> HasFree(t)
  {
    DistinctKeysCount(t);
    forall k ensures k in m <==> k in KeysOf(t) {
      KeysOfOccur(t, k);
    }
    assert m.Keys == KeysOf(t);
  }
}

module HashTables {
  import opened Basics
  import opened Wrappers
  import opened RobinHood

  /** The class behind this one has a negative capacity. */
  const LARGEST_CLASS := 30

  /** `1 << n` in 32-bit arithmetic, where the shift count is taken modulo 32. */
  function ShiftedOne(n: nat): int {
    if n % 32 == 31 then -0x8000_0000 else Pow2(n % 32)
  }

  lemma ShiftsByClass(n: nat)
    requires n <= LARGEST_CLASS
    ensures ShiftedOne(n) == Pow2(n) > 0
    ensures ShiftedOne(LARGEST_CLASS + 1) < 0
  {
    hide Pow2;
  }

  /** Nine tenths of the slots are taken. */
  predicate MustGrow(size: nat, slots: nat) {
    size * 10 >= slots * 9
  }

  /** The smallest number of keys with which the largest table has to grow, and fails. */
  lemma LargestTableIsFull()
    ensures Pow2(LARGEST_CLASS) == 0x4000_0000 && ShiftedOne(LARGEST_CLASS + 1) < 0
    ensures forall size: nat :: MustGrow(size, Pow2(LARGEST_CLASS)) <==> size >= 966_367_642
  {
    assert Pow2(10) == 1024 && Pow2(20) == 1024 * Pow2(10) && Pow2(30) == 1024 * Pow2(20);
  }

  /** Slot `i` of the flat key array read together with the value array. */
  ghost function SlotAt<V>(keyBytes: seq<byte>, values: seq<Option<V>>, i: nat): Slot<V>
    requires i < |values| && |keyBytes| == KEY_LENGTH * |values|
  {
    match values[i]
    case None => Free
    case Some(v) => Used(keyBytes[KEY_LENGTH * i..KEY_LENGTH * i + KEY_LENGTH], v)
  }

  ghost function SlotsOf<V>(keyBytes: seq<byte>, values: seq<Option<V>>): (t: seq<Slot<V>>)
    requires |keyBytes| == KEY_LENGTH * |values|
    ensures |t| == |values|
    ensures forall i | 0 <= i < |t| :: t[i] == SlotAt(keyBytes, values, i)
  {
    seq(|values|, i requires 0 <= i < |values| => SlotAt(keyBytes, values, i))
  }

  /** Writing six bytes at one slot leaves the keys of the other slots alone. */
  lemma OneSlotWritten<V>(bytes: seq<byte>, values: seq<Option<V>>, bytes': seq<byte>, values': seq<Option<V>>,
                          slot: nat, k: Key, v: V)
    requires |bytes| == |bytes'| == KEY_LENGTH * |values| && slot < |values|
    requires values' == values[slot := Some(v)]
    requires bytes'[KEY_LENGTH * slot..KEY_LENGTH * slot + KEY_LENGTH] == k
    requires forall x | 0 <= x < |bytes| && !(KEY_LENGTH * slot <= x < KEY_LENGTH * slot + KEY_LENGTH) ::
               bytes'[x] == bytes[x]
    ensures SlotsOf(bytes', values') == SlotsOf(bytes, values)[slot := Used(k, v)]
  {
    forall i | 0 <= i < |values| && i != slot ensures SlotAt(bytes', values', i) == SlotAt(bytes, values, i) {
      var b, e := KEY_LENGTH * i, KEY_LENGTH * i + KEY_LENGTH;
      assert bytes'[b..e] == bytes[b..e];
    }
  }

  /** A map from six-byte keys to values. */
  class HashTable<V> {
    var keys: array<byte>
    var values: array<Option<V>>
    var size: nat
    var capacityClass: nat
    /** The finite map that the table represents. */
    ghost var contents: map<Key, V>

    ghost predicate Shaped()
      reads this
    {
      && keys.Length == KEY_LENGTH * values.Length
      && values.Length == (if capacityClass == 0 then 0 else Pow2(capacityClass))
      && capacityClass <= LARGEST_CLASS
    }

    /** What a failed `Set` leaves: the arrays of the largest class, and a negative capacity. */
    ghost predicate Unusable()
      reads this
    {
      && keys.Length == KEY_LENGTH * values.Length
      && values.Length == Pow2(LARGEST_CLASS)
      && capacityClass == LARGEST_CLASS + 1
    }

    ghost function Slots(): seq<Slot<V>>
      requires Shaped()
      reads this, keys, values
    {
      SlotsOf(keys[..], values[..])
    }

    ghost predicate Valid()
      reads this, keys, values
    {
      && Shaped()
      && WellPlaced(Slots())
      && Holds(Slots(), contents)
      && size == |contents|
    }

    constructor ()
      ensures Valid() && contents == map[]
      ensures fresh(keys) && fresh(values)
    {
      keys := new byte[0];
      values := new Option<V>[0];
      size := 0;
      capacityClass := 0;
      contents := map[];
    }

    method WriteSlot(slot: nat, key: Key, value: V)
      requires Shaped() && slot < values.Length
      modifies keys, values
      ensures Slots() == old(Slots())[slot := Used(key, value)]
    {
      ghost var bytes, vals := keys[..], values[..];
      values[slot] := Some(value);
      var keysStart := slot * KEY_LENGTH;
      keys[keysStart + 0] := key[0];
      keys[keysStart + 1] := key[1];
      keys[keysStart + 2] := key[2];
      keys[keysStart + 3] := key[3];
      keys[keysStart + 4] := key[4];
      keys[keysStart + 5] := key[5];
      OneSlotWritten(bytes, vals, keys[..], values[..], slot, key, value);
    }

    /** Reads the six key bytes of a slot. */
    method ReadKey(slot: nat) returns (key: Key)
      requires Shaped() && slot < values.Length
      ensures values[slot].Some? ==> Slots()[slot] == Used(key, values[slot].value)
    {
      key := keys[slot * KEY_LENGTH..slot * KEY_LENGTH + KEY_LENGTH];
    }

    /** The entry in hand has found its slot: a free one, or the one that already has its key. */
    method Settle(slot: nat, key: Key, value: V, ghost goal: map<Key, V>)
      requires Shaped() && Carrying(Slots(), key, value, slot, goal)
      requires Slots()[slot].Used? ==> Slots()[slot].key == key
      requires |goal| == size + if Occurs(Slots(), key) then 0 else 1
      modifies this`size, this`contents, keys, values
      ensures Valid() && contents == goal
    {
      if values[slot].None? {
        PlacedInFreeSlot(Slots(), key, value, slot, goal);
        size := size + 1;
      } else {
        ReplacedInPlace(Slots(), key, value, slot, goal);
      }
      WriteSlot(slot, key, value);
      contents := goal;
    }

    method SetNoGrow(startKey: Key, startValue: V)
      requires Valid() && |contents| < values.Length
      modifies this`size, this`contents, keys, values
      ensures Valid() && contents == old(contents)[startKey := startValue]
    {
      hide Carrying, Exchanged, Preferred;
      var key: Key := startKey;
      var value := startValue;
      var l := values.Length;
      var slot: nat := Preferred(key, l);
      CarryingStarts(Slots(), contents, key, value);
      ghost var goal := contents[key := value];
      ghost var free := FreeSlot(Slots());
      var distance: nat := 0;
      while distance < l
        invariant Shaped() && slot < l == values.Length && free < l
        invariant Slots()[free].Free?
        invariant distance == Probe(Slots(), key, slot)
        invariant Carrying(Slots(), key, value, slot, goal)
        invariant |goal| == size + if Occurs(Slots(), key) then 0 else 1
        decreases Distance(slot, free, l)
      {
        if values[slot].None? {
          Settle(slot, key, value, goal);
          return;
        }
        var otherKey := ReadKey(slot);
        if key == otherKey {
          Settle(slot, key, value, goal);
          return;
        }
        CarryingSteps(Slots(), key, value, slot, goal, free);
        key, value, distance := PassSlot(slot, key, value, distance, otherKey);
        distance := distance + 1;
        slot := Next(slot, l);
      }
    }

    /** Exchanges the entry in hand with the one at `slot` if that one is closer to home. */
    method PassSlot(slot: nat, key: Key, value: V, distance: nat, otherKey: Key)
      returns (key': Key, value': V, distance': nat)
      requires Shaped() && slot < values.Length
      requires values[slot].Some? && Slots()[slot] == Used(otherKey, values[slot].value)
      requires distance == Probe(Slots(), key, slot)
      modifies keys, values
      ensures (Slots(), key', value') == Exchanged(old(Slots()), key, value, slot)
      ensures distance' == Probe(Slots(), key', slot)
    {
      var l := values.Length;
      var otherDistance := Distance(Preferred(otherKey, l), slot, l);
      if distance > otherDistance {
        value' := values[slot].value;
        WriteSlot(slot, key, value);
        key' := otherKey;
        distance' := otherDistance;
      } else {
        key', value', distance' := key, value, distance;
      }
    }

    /**
     Stores `value` under `key`. The one failure is growing past the largest class, where the
     byte array cannot be allocated; the class has been bumped by then, and nothing can be found.
     */
    method Set(key: Key, value: V) returns (ok: bool)
      requires Valid()
      modifies this, keys, values
      ensures ok <==> !old(size * 10 >= values.Length * 9 && capacityClass == 30)
      ensures ok ==> Valid() && contents == old(contents)[key := value]
      ensures ok ==> capacityClass == old(capacityClass) + if old(size * 10 >= values.Length * 9) then 1 else 0
      ensures !ok ==> Unusable() && size == old(size)
      ensures !ok ==> keys == old(keys) && keys[..] == old(keys[..])
      ensures !ok ==> values == old(values) && values[..] == old(values[..])
      ensures keys == old(keys) || fresh(keys)
      ensures values == old(values) || fresh(values)
    {
      hide WellPlaced, Holds, Pow2, ShiftedOne;
      ShiftsByClass(capacityClass);
      ShiftsByClass(if capacityClass < LARGEST_CLASS then capacityClass + 1 else 0);
      if MustGrow(size, values.Length) {
        capacityClass := capacityClass + 1;
        if ShiftedOne(capacityClass) < 0 {
          return false;
        }
        Rehash();
      }
      SetNoGrow(key, value);
      ok := true;
    }

    /** Moves every entry into arrays of the class that `Set` has just entered. */
    method Rehash()
      requires 0 < capacityClass <= LARGEST_CLASS
      requires keys.Length == KEY_LENGTH * values.Length
      requires values.Length == if capacityClass == 1 then 0 else Pow2(capacityClass - 1)
      requires WellPlaced(SlotsOf(keys[..], values[..])) && Holds(SlotsOf(keys[..], values[..]), contents)
      modifies this
      ensures Valid() && contents == old(contents) && capacityClass == old(capacityClass)
      ensures |contents| < values.Length
      ensures fresh(keys) && fresh(values)
    {
      var oldKeys, oldValues := keys, values;
      ghost var t, all := SlotsOf(keys[..], values[..]), contents;
      var l := oldValues.Length;
      Reset();
      var i: nat := 0;
      while i < l
        invariant Valid() && i <= l < values.Length
        invariant oldKeys != keys && oldValues != values
        invariant SlotsOf(oldKeys[..], oldValues[..]) == t
        invariant fresh(keys) && fresh(values)
        invariant capacityClass == old(capacityClass)
        invariant Holds(t[..i], contents)
      {
        Reinsert(oldKeys, oldValues, i);
        i := i + 1;
      }
      assert t[..l] == t;
      HoldsIsFunctional(t, contents, all);
      SizeCountsSlots(t, contents);
    }

    /** Inserts the entry of one old slot, if it has one. */
    method Reinsert(oldKeys: array<byte>, oldValues: array<Option<V>>, i: nat)
      requires Valid() && oldKeys != keys && oldValues != values
      requires oldKeys.Length == KEY_LENGTH * oldValues.Length && i < oldValues.Length < values.Length
      requires Distinct(SlotsOf(oldKeys[..], oldValues[..]))
      requires Holds(SlotsOf(oldKeys[..], oldValues[..])[..i], contents)
      modifies this`size, this`contents, keys, values
      ensures Valid() && Holds(SlotsOf(oldKeys[..], oldValues[..])[..i + 1], contents)
    {
      ghost var t := SlotsOf(oldKeys[..], oldValues[..]);
      var oldValue := oldValues[i];
      if oldValue.Some? {
        var oldKey: Key := oldKeys[i * KEY_LENGTH..i * KEY_LENGTH + KEY_LENGTH];
        assert t[i] == Used(oldKey, oldValue.value);
        PrefixFits(t, i, contents);
        PrefixGrows(t, i, contents);
        SetNoGrow(oldKey, oldValue.value);
      } else {
        assert t[i] == Free;
        PrefixSkips(t, i, contents);
      }
    }

    /** Fresh, empty arrays for the current class. */
    method Reset()
      requires 0 < capacityClass <= LARGEST_CLASS
      modifies this
      ensures Valid() && contents == map[] && capacityClass == old(capacityClass)
      ensures fresh(keys) && fresh(values)
    {
      var capacity := Pow2(capacityClass);
      keys := new byte[capacity * KEY_LENGTH](_ => 0);
      values := new Option<V>[capacity](_ => None);
      size := 0;
      contents := map[];
    }

    /** The last value set for `key`, or nothing; always nothing after a failed `Set`. */
    method Get(key: Key) returns (r: Option<V>)
      requires Valid() || Unusable()
      ensures Valid() ==> r == if key in contents then Some(contents[key]) else None
      ensures Unusable() ==> r == None
    {
      if values.Length == 0 {
        assert Valid();
        EmptyTableHoldsNothing(Slots(), contents, key);
        return None;
      }
      ShiftsByClass(if Valid() then capacityClass else 0);
      var l := ShiftedOne(capacityClass);
      if l < 0 {
        // The loop is not entered.
        return None;
      }
      LookupFinds(Slots(), contents, key);
      r := Search(key, l);
    }

    /** The probe loop of `Get`. */
    method Search(key: Key, l: nat) returns (r: Option<V>)
      requires Shaped() && values.Length == l > 0
      ensures r == Lookup(Slots(), key, Preferred(key, l), 0)
    {
      hide Preferred, Pow2, Distance;
      var slot: nat := Preferred(key, l);
      ghost var t := Slots();
      var distance: nat := 0;
      while distance < l
        invariant 0 <= distance <= l && slot < l
        invariant Lookup(t, key, slot, distance) == Lookup(t, key, Preferred(key, l), 0)
      {
        if values[slot].None? {
          break;
        }
        var otherKey := ReadKey(slot);
        if key == otherKey {
          return values[slot];
        } else {
          var otherDistance := Distance(Preferred(otherKey, l), slot, l);
          if distance > otherDistance {
            break;
          }
        }
        slot := Next(slot, l);
        distance := distance + 1;
      }
      return None;
    }
  }

  lemma EmptyTableHoldsNothing<V>(t: seq<Slot<V>>, m: map<Key, V>, k: Key)
    requires t == [] && Holds(t, m)
    ensures k !in m
  {
    assert !Occurs(t, k);
  }

  /** An insertion into a table with more slots than pairs starts well and meets a free slot. */
  lemma CarryingStarts<V>(t: seq<Slot<V>>, m: map<Key, V>, k: Key, v: V)
    requires WellPlaced(t) && Holds(t, m) && |m| < |t|
    ensures Carrying(t, k, v, Preferred(k, |t|), m[k := v])
    ensures HasFree(t)
    ensures |m[k := v]| == |m| + if Occurs(t, k) then 0 else 1
  {
    SizeCountsSlots(t, m);
    assert k in m <==> Occurs(t, k);
  }

  /** There are no more keys than slots passed. */
  lemma PrefixFits<V>(t: seq<Slot<V>>, i: nat, m: map<Key, V>)
    requires i <= |t| && Distinct(t) && Holds(t[..i], m)
    ensures |m| <= i
  {
    SizeCountsSlots(t[..i], m);
  }

  /** Reinserting one more old slot: the new table holds the longer prefix. */
  lemma PrefixGrows<V>(t: seq<Slot<V>>, i: nat, m: map<Key, V>)
    requires i < |t| && t[i].Used? && Distinct(t) && Holds(t[..i], m)
    ensures Holds(t[..i + 1], m[t[i].key := t[i].value])
  {
    var k: Key := t[i].key;
    var r := m[k := t[i].value];
    forall x | x in r ensures Occurs(t[..i + 1], x) {
      if x == k {
        assert t[..i + 1][i].key == x;
      } else {
        assert Occurs(t[..i], x);
        var s :| 0 <= s < i && t[..i][s].Used? && t[..i][s].key == x;
        assert t[..i + 1][s].key == x;
      }
    }
  }

  lemma PrefixSkips<V>(t: seq<Slot<V>>, i: nat, m: map<Key, V>)
    requires i < |t| && t[i].Free? && Holds(t[..i], m)
    ensures Holds(t[..i + 1], m)
  {
    forall x | x in m ensures Occurs(t[..i + 1], x) {
      assert Occurs(t[..i], x);
      var s :| 0 <= s < i && t[..i][s].Used? && t[..i][s].key == x;
      assert t[..i + 1][s].key == x;
    }
  }
}
