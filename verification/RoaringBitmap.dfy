/**
 Roaring bitmaps: sets of 32-bit numbers kept as a sorted list of containers, one for each upper
 half that occurs. Union and intersection walk both lists at once.
 */
module RoaringEntries {
  import opened Basics
  import opened RoaringContainers

  /** `count` is the number of values that the bitmap has noted for the container. */
  datatype Entry = Entry(key: int, container: Container, count: int)

  ghost predicate AllWellFormed(es: seq<Entry>) {
    forall i {:trigger InRange(es[i])} {:trigger es[i].container} {:trigger es[i].key} | 0 <= i < |es| :: InRange(es[i])
  }

  ghost predicate InRange(e: Entry) {
    WellFormed(e.container) && 0 <= e.key < LIMIT && 1 <= e.count <= LIMIT
  }

  /** The noted numbers of values are right. */
  ghost predicate Counted(es: seq<Entry>)
    requires AllWellFormed(es)
  {
    forall i | 0 <= i < |es| :: es[i].count == |Members(es[i].container)|
  }

  ghost predicate KeysAscend(es: seq<Entry>) {
    forall i, j {:trigger es[i].key, es[j].key} | 0 <= i < j < |es| :: es[i].key < es[j].key
  }

  ghost predicate Sorted(es: seq<Entry>) {
    AllWellFormed(es) && KeysAscend(es)
  }

  /** Some entry has key `k` and holds `v`. */
  ghost predicate Stores(es: seq<Entry>, k: int, v: int)
    requires AllWellFormed(es)
  {
    es != [] &&
    var last := es[|es| - 1];
    (last.key == k && Has(last.container, v)) || Stores(es[..|es| - 1], k, v)
  }

  ghost predicate KeysBelow(es: seq<Entry>, bound: int) {
    forall i {:trigger es[i].key} | 0 <= i < |es| :: es[i].key < bound
  }

  lemma StoresAppend(es: seq<Entry>, e: Entry, k: int, v: int)
    requires AllWellFormed(es) && InRange(e)
    ensures AllWellFormed(es + [e])
    ensures Stores(es + [e], k, v) <==> Stores(es, k, v) || (e.key == k && Has(e.container, v))
  {
    assert (es + [e])[..|es|] == es;
  }

  lemma {:induction false} NothingStoredAbove(es: seq<Entry>, bound: int, k: int, v: int)
    requires AllWellFormed(es) && KeysBelow(es, bound) && bound <= k
    ensures !Stores(es, k, v)
  {
    if es != [] {
      NothingStoredAbove(es[..|es| - 1], bound, k, v);
    }
  }

  /** In a sorted list the key alone finds the container. */
  lemma {:induction false} StoresAt(es: seq<Entry>, i: nat, v: int)
    requires Sorted(es) && i < |es|
    ensures Stores(es, es[i].key, v) <==> Has(es[i].container, v)
  {
    var n := |es| - 1;
    if i < n {
      StoresAt(es[..n], i, v);
    } else {
      NothingStoredAbove(es[..n], es[n].key, es[n].key, v);
    }
  }

  lemma {:induction false} StoresNothingElse(es: seq<Entry>, k: int, v: int)
    requires AllWellFormed(es) && forall i | 0 <= i < |es| :: es[i].key != k
    ensures !Stores(es, k, v)
  {
    if es != [] {
      StoresNothingElse(es[..|es| - 1], k, v);
    }
  }

  lemma {:induction false} StoredInRange(es: seq<Entry>, k: int, v: int)
    requires AllWellFormed(es) && Stores(es, k, v)
    ensures 0 <= k < LIMIT && 0 <= v < LIMIT
  {
    var n := |es| - 1;
    assert 0 <= es[n].key < LIMIT;
    if !(es[n].key == k && Has(es[n].container, v)) {
      StoredInRange(es[..n], k, v);
    }
  }

  lemma {:induction false} StoresSomewhere(es: seq<Entry>, k: int, v: int)
    requires AllWellFormed(es)
    ensures Stores(es, k, v) <==> exists i :: 0 <= i < |es| && es[i].key == k && Has(es[i].container, v)
  {
    if es != [] {
      var n := |es| - 1;
      StoresSomewhere(es[..n], k, v);
      forall i | 0 <= i < n ensures es[..n][i] == es[i] {}
    }
  }

  /** The entries of a key list in bytes and a container list. */
  ghost function EntriesOf(kc: seq<byte>, cs: seq<Container>): (es: seq<Entry>)
    requires 4 * |cs| <= |kc|
    ensures |es| == |cs|
    ensures forall i | 0 <= i < |cs| :: es[i] == Entry(U16(kc, 4 * i), cs[i], U16(kc, 4 * i + 2) + 1)
  {
    seq(|cs|, i requires 0 <= i < |cs| => Entry(U16(kc, 4 * i), cs[i], U16(kc, 4 * i + 2) + 1))
  }

  // The numbers that a list of entries stands for, and how many there are.

  ghost function NumbersOf(es: seq<Entry>): set<int>
    requires AllWellFormed(es)
  {
    set n | 0 <= n < LIMIT * LIMIT && Stores(es, n / LIMIT, n % LIMIT)
  }

  /** What `cardinality` adds up. */
  function Total(es: seq<Entry>): int {
    if es == [] then 0 else Total(es[..|es| - 1]) + es[|es| - 1].count
  }

  ghost predicate Owns(e: Entry, n: int)
    requires InRange(e)
  {
    n / LIMIT == e.key && Has(e.container, n % LIMIT)
  }

  ghost function OwnedBy(e: Entry): set<int>
    requires InRange(e)
  {
    set n | 0 <= n < LIMIT * LIMIT && Owns(e, n)
  }

  lemma {:induction false} OwnedSize(e: Entry, b: nat)
    requires InRange(e) && b <= LIMIT
    ensures |Below(OwnedBy(e), LIMIT * e.key + b)| == |Below(Members(e.container), b)|
  {
    hide Below, OwnedBy, Members;
    if b == 0 {
      NothingOwnedBelow(e);
    } else {
      OwnedSize(e, b - 1);
      OneMoreOwned(e, b - 1);
    }
  }

  lemma NothingOwnedBelow(e: Entry)
    requires InRange(e)
    ensures Below(OwnedBy(e), LIMIT * e.key) == {} == Below(Members(e.container), 0)
  {
  }

  lemma OneMoreOwned(e: Entry, b: nat)
    requires InRange(e) && b < LIMIT
    ensures |Below(OwnedBy(e), LIMIT * e.key + b + 1)| - |Below(OwnedBy(e), LIMIT * e.key + b)|
         == |Below(Members(e.container), b + 1)| - |Below(Members(e.container), b)|
  {
    hide Below, OwnedBy, Members;
    OneMoreBelow(OwnedBy(e), LIMIT * e.key + b);
    OneMoreBelow(Members(e.container), b);
    OwnsShifted(e, b);
  }

  lemma OwnsShifted(e: Entry, v: nat)
    requires InRange(e) && v < LIMIT
    ensures LIMIT * e.key + v in OwnedBy(e) <==> v in Members(e.container)
  {
    assert (LIMIT * e.key + v) / LIMIT == e.key && (LIMIT * e.key + v) % LIMIT == v;
  }

  /** The numbers of an entry with a new key are new. */
  lemma OneMoreEntry(es: seq<Entry>, e: Entry)
    requires AllWellFormed(es) && InRange(e) && KeysBelow(es, e.key)
    ensures AllWellFormed(es + [e])
    ensures |NumbersOf(es + [e])| == |NumbersOf(es)| + |Members(e.container)|
  {
    forall n | 0 <= n < LIMIT * LIMIT
      ensures n in NumbersOf(es + [e]) <==> n in NumbersOf(es) || n in OwnedBy(e)
      ensures n in NumbersOf(es) ==> n !in OwnedBy(e)
    {
      StoresAppend(es, e, n / LIMIT, n % LIMIT);
      if Owns(e, n) {
        NothingStoredAbove(es, e.key, e.key, n % LIMIT);
      }
    }
    assert NumbersOf(es + [e]) == NumbersOf(es) + OwnedBy(e);
    OwnedSize(e, LIMIT);
    assert OwnedBy(e) == Below(OwnedBy(e), LIMIT * e.key + LIMIT);
    assert Members(e.container) == Below(Members(e.container), LIMIT);
  }

  /** Right counts add up to the number of numbers. */
  lemma {:induction false} TotalIsSize(es: seq<Entry>)
    requires Sorted(es) && Counted(es)
    ensures Total(es) == |NumbersOf(es)|
  {
    if es == [] {
      assert NumbersOf(es) == {};
    } else {
      var n := |es| - 1;
      TotalIsSize(es[..n]);
      OneMoreEntry(es[..n], es[n]);
      assert es[..n] + [es[n]] == es;
    }
  }

  // Union and intersection while walking two sorted lists: `a[..i]` and `b[..j]` are done.

  ghost predicate UnionSoFar(r: seq<Entry>, a: seq<Entry>, b: seq<Entry>) {
    && Sorted(r) && AllWellFormed(a) && AllWellFormed(b)
    && forall k, v {:trigger Stores(r, k, v)} :: Stores(r, k, v) <==> Stores(a, k, v) || Stores(b, k, v)
  }

  ghost predicate IntersectionSoFar(r: seq<Entry>, a: seq<Entry>, b: seq<Entry>) {
    && Sorted(r) && AllWellFormed(a) && AllWellFormed(b)
    && forall k, v {:trigger Stores(r, k, v)} :: Stores(r, k, v) <==> Stores(a, k, v) && Stores(b, k, v)
  }

  /** Every finished key is below every key that is still to come. */
  ghost predicate Ahead(es: seq<Entry>, a: seq<Entry>, i: nat)
    requires i <= |a|
  {
    i < |a| ==> KeysBelow(es, a[i].key)
  }

  lemma SortedAppend(r: seq<Entry>, e: Entry)
    requires Sorted(r) && InRange(e) && KeysBelow(r, e.key)
    ensures Sorted(r + [e])
  {
  }

  lemma UnionTakesLeft(r: seq<Entry>, a: seq<Entry>, i: nat, b: seq<Entry>, j: nat)
    requires Sorted(a) && Sorted(b) && i < |a| && j <= |b|
    requires UnionSoFar(r, a[..i], b[..j]) && Ahead(r, a, i) && Ahead(r, b, j)
    requires j < |b| ==> a[i].key < b[j].key
    ensures UnionSoFar(r + [a[i]], a[..i + 1], b[..j])
    ensures Ahead(r + [a[i]], a, i + 1) && Ahead(r + [a[i]], b, j)
  {
    SortedAppend(r, a[i]);
    assert a[..i + 1] == a[..i] + [a[i]];
    forall k, v ensures Stores(r + [a[i]], k, v) <==> Stores(a[..i + 1], k, v) || Stores(b[..j], k, v) {
      StoresAppend(r, a[i], k, v);
      StoresAppend(a[..i], a[i], k, v);
    }
  }

  lemma UnionTakesRight(r: seq<Entry>, a: seq<Entry>, i: nat, b: seq<Entry>, j: nat)
    requires Sorted(a) && Sorted(b) && i <= |a| && j < |b|
    requires UnionSoFar(r, a[..i], b[..j]) && Ahead(r, a, i) && Ahead(r, b, j)
    requires i < |a| ==> b[j].key < a[i].key
    ensures UnionSoFar(r + [b[j]], a[..i], b[..j + 1])
    ensures Ahead(r + [b[j]], a, i) && Ahead(r + [b[j]], b, j + 1)
  {
    UnionSymmetric(r, a[..i], b[..j]);
    UnionTakesLeft(r, b, j, a, i);
    UnionSymmetric(r + [b[j]], b[..j + 1], a[..i]);
  }

  /** The walk stands at `a[i]` and `b[j]`. */
  ghost predicate Uniting(r: seq<Entry>, a: seq<Entry>, i: nat, b: seq<Entry>, j: nat) {
    && i <= |a| && j <= |b| && Sorted(a) && Sorted(b)
    && UnionSoFar(r, a[..i], b[..j]) && Ahead(r, a, i) && Ahead(r, b, j)
    && (Counted(a) && Counted(b) ==> Counted(r))
  }

  lemma UnitingSteps(r: seq<Entry>, a: seq<Entry>, i: nat, b: seq<Entry>, j: nat)
    requires Uniting(r, a, i, b, j)
    ensures i < |a| && (j < |b| ==> a[i].key < b[j].key) ==> Uniting(r + [a[i]], a, i + 1, b, j)
    ensures j < |b| && (i < |a| ==> b[j].key < a[i].key) ==> Uniting(r + [b[j]], a, i, b, j + 1)
  {
    if i < |a| && (j < |b| ==> a[i].key < b[j].key) {
      UnionTakesLeft(r, a, i, b, j);
    } else if j < |b| && (i < |a| ==> b[j].key < a[i].key) {
      UnionTakesRight(r, a, i, b, j);
    }
  }

  /** Two entries with the same key; a union has at least the values of either. */
  lemma UnitingTakesBoth(r: seq<Entry>, a: seq<Entry>, i: nat, b: seq<Entry>, j: nat, e: Entry)
    requires Uniting(r, a, i, b, j) && i < |a| && j < |b|
    requires e.key == a[i].key == b[j].key && InRange(e)
    requires forall v :: Has(e.container, v) <==> Has(a[i].container, v) || Has(b[j].container, v)
    requires e.count == Noted(|Members(e.container)|)
    ensures Uniting(r + [e], a, i + 1, b, j + 1)
  {
    UnionTakesBoth(r, a, i, b, j, e);
    if Counted(a) {
      MembersFit(e.container);
      SubsetSize(Members(a[i].container), Members(e.container));
    }
  }

  lemma UnionSymmetric(r: seq<Entry>, a: seq<Entry>, b: seq<Entry>)
    requires UnionSoFar(r, a, b)
    ensures UnionSoFar(r, b, a)
  {
  }

  lemma UnionTakesBoth(r: seq<Entry>, a: seq<Entry>, i: nat, b: seq<Entry>, j: nat, e: Entry)
    requires Sorted(a) && Sorted(b) && i < |a| && j < |b|
    requires UnionSoFar(r, a[..i], b[..j]) && Ahead(r, a, i) && Ahead(r, b, j)
    requires e.key == a[i].key == b[j].key && InRange(e)
    requires forall v :: Has(e.container, v) <==> Has(a[i].container, v) || Has(b[j].container, v)
    ensures UnionSoFar(r + [e], a[..i + 1], b[..j + 1])
    ensures Ahead(r + [e], a, i + 1) && Ahead(r + [e], b, j + 1)
  {
    SortedAppend(r, e);
    assert a[..i + 1] == a[..i] + [a[i]] && b[..j + 1] == b[..j] + [b[j]];
    forall k, v ensures Stores(r + [e], k, v) <==> Stores(a[..i + 1], k, v) || Stores(b[..j + 1], k, v) {
      StoresAppend(r, e, k, v);
      StoresAppend(a[..i], a[i], k, v);
      StoresAppend(b[..j], b[j], k, v);
    }
  }

  /** Passing an entry of `a` whose key is below all that is left of `b`. */
  lemma IntersectionSkips(r: seq<Entry>, a: seq<Entry>, i: nat, b: seq<Entry>)
    requires Sorted(a) && i < |a|
    requires IntersectionSoFar(r, a[..i], b) && KeysBelow(b, a[i].key)
    ensures IntersectionSoFar(r, a[..i + 1], b) && Ahead(b, a, i + 1)
  {
    assert a[..i + 1] == a[..i] + [a[i]];
    forall k, v ensures Stores(r, k, v) <==> Stores(a[..i + 1], k, v) && Stores(b, k, v) {
      StoresAppend(a[..i], a[i], k, v);
      if k == a[i].key {
        NothingStoredAbove(b, k, k, v);
      }
    }
  }

  lemma IntersectionSymmetric(r: seq<Entry>, a: seq<Entry>, b: seq<Entry>)
    requires IntersectionSoFar(r, a, b)
    ensures IntersectionSoFar(r, b, a)
  {
  }

  lemma IntersectionSkipsRight(r: seq<Entry>, a: seq<Entry>, b: seq<Entry>, j: nat)
    requires Sorted(b) && j < |b|
    requires IntersectionSoFar(r, a, b[..j]) && KeysBelow(a, b[j].key)
    ensures IntersectionSoFar(r, a, b[..j + 1]) && Ahead(a, b, j + 1)
  {
    IntersectionSymmetric(r, a, b[..j]);
    IntersectionSkips(r, b, j, a);
    IntersectionSymmetric(r, b[..j + 1], a);
  }

  /** The count that is read back when one less has been noted in 16 bits. */
  function Noted(card: int): (count: int)
    ensures 1 <= count <= LIMIT
    ensures 1 <= card <= LIMIT ==> count == card
  {
    (card - 1) % LIMIT + 1
  }

  /** Two entries with the same key: their common values `c` are added, if there are any. */
  ghost function WithCommon(r: seq<Entry>, key: int, c: Container, card: nat): seq<Entry> {
    if card != 0 then r + [Entry(key, c, Noted(card))] else r
  }

  lemma NoMembers(c: Container)
    requires WellFormed(c) && |Members(c)| == 0
    ensures forall v :: !Has(c, v)
  {
    forall v ensures v in Members(c) <==> Has(c, v) {}
    assert Members(c) == {};
  }

  lemma IntersectionTakesBoth(r: seq<Entry>, a: seq<Entry>, i: nat, b: seq<Entry>, j: nat, c: Container, card: nat)
    requires Sorted(a) && Sorted(b) && i < |a| && j < |b| && a[i].key == b[j].key
    requires IntersectionSoFar(r, a[..i], b[..j]) && Ahead(r, a, i)
    requires WellFormed(c) && forall v :: Has(c, v) <==> Has(a[i].container, v) && Has(b[j].container, v)
    requires card == |Members(c)|
    ensures var r' := WithCommon(r, a[i].key, c, card);
      IntersectionSoFar(r', a[..i + 1], b[..j + 1]) && Ahead(r', a, i + 1)
    ensures Ahead(a[..i + 1], b, j + 1) && Ahead(b[..j + 1], a, i + 1)
  {
    var e, r' := Entry(a[i].key, c, Noted(card)), WithCommon(r, a[i].key, c, card);
    if card != 0 {
      SortedAppend(r, e);
    } else {
      NoMembers(c);
    }
    assert a[..i + 1] == a[..i] + [a[i]] && b[..j + 1] == b[..j] + [b[j]];
    forall k, v ensures Stores(r', k, v) <==> Stores(a[..i + 1], k, v) && Stores(b[..j + 1], k, v) {
      if card != 0 {
        StoresAppend(r, e, k, v);
      }
      StoresAppend(a[..i], a[i], k, v);
      StoresAppend(b[..j], b[j], k, v);
      if k == a[i].key {
        NothingStoredAbove(a[..i], k, k, v);
        NothingStoredAbove(b[..j], k, k, v);
      }
    }
  }

  /** What is left of `b` when `a` is finished has nothing in common with `a`. */
  lemma {:induction false} IntersectionEnds(r: seq<Entry>, a: seq<Entry>, b: seq<Entry>, j: nat)
    requires Sorted(b) && j <= |b|
    requires IntersectionSoFar(r, a, b[..j]) && Ahead(a, b, j)
    ensures IntersectionSoFar(r, a, b)
    decreases |b| - j
  {
    if j == |b| {
      assert b[..j] == b;
    } else {
      IntersectionSkipsRight(r, a, b, j);
      IntersectionEnds(r, a, b, j + 1);
    }
  }

  /** The walk stands at `a[i]` and `b[j]`. */
  ghost predicate Walking(r: seq<Entry>, a: seq<Entry>, i: nat, b: seq<Entry>, j: nat) {
    && i <= |a| && j <= |b| && Sorted(a) && Sorted(b)
    && IntersectionSoFar(r, a[..i], b[..j])
    && Ahead(a[..i], b, j) && Ahead(b[..j], a, i) && Ahead(r, a, i)
    && Counted(r)
  }

  lemma WalkingSteps(r: seq<Entry>, a: seq<Entry>, i: nat, b: seq<Entry>, j: nat)
    requires Walking(r, a, i, b, j) && i < |a| && j < |b|
    ensures a[i].key < b[j].key ==> Walking(r, a, i + 1, b, j)
    ensures b[j].key < a[i].key ==> Walking(r, a, i, b, j + 1)
  {
    if a[i].key < b[j].key {
      IntersectionSkips(r, a, i, b[..j]);
    } else if b[j].key < a[i].key {
      IntersectionSkipsRight(r, a[..i], b, j);
    }
  }

  lemma WalkingTakesBoth(r: seq<Entry>, a: seq<Entry>, i: nat, b: seq<Entry>, j: nat, c: Container, card: nat)
    requires Walking(r, a, i, b, j) && i < |a| && j < |b| && a[i].key == b[j].key
    requires WellFormed(c) && forall v :: Has(c, v) <==> Has(a[i].container, v) && Has(b[j].container, v)
    requires card == |Members(c)|
    ensures Walking(WithCommon(r, a[i].key, c, card), a, i + 1, b, j + 1)
  {
    IntersectionTakesBoth(r, a, i, b, j, c, card);
    MembersFit(c);
  }

  lemma IntersectionComplete(r: seq<Entry>, a: seq<Entry>, i: nat, b: seq<Entry>, j: nat)
    requires Walking(r, a, i, b, j) && (i == |a| || j == |b|)
    ensures IntersectionSoFar(r, a, b)
  {
    assert a[..|a|] == a && b[..|b|] == b;
    if i == |a| {
      IntersectionEnds(r, a, b, j);
    } else {
      IntersectionSymmetric(r, a[..i], b);
      IntersectionEnds(r, b, a, i);
      IntersectionSymmetric(r, b, a);
    }
  }
}

module RoaringBitmaps {
  import opened Basics
  import opened RoaringContainers
  import opened RoaringEntries

  const TWO_TO_31 := 0x8000_0000
  const TWO_TO_32 := 0x1_0000_0000

  /** The upper half of a 32-bit number. */
  function Upper(n: int): int { n / LIMIT }

  function Lower(n: int): int { n % LIMIT }

  predicate BitsOnly(x: Container, y: Container, c: Container) {
    x.Bits? && y.Bits? && c.Bits? && |x.bitmap| == |y.bitmap| == |c.bitmap| == BITS_LENGTH
  }

  ghost predicate UnitedBytes(x: Container, y: Container, c: Container)
    requires BitsOnly(x, y, c)
  {
    forall m | 0 <= m < BITS_LENGTH :: c.bitmap[m] == x.bitmap[m] | y.bitmap[m]
  }

  ghost predicate CommonBytes(x: Container, y: Container, c: Container)
    requires BitsOnly(x, y, c)
  {
    forall m | 0 <= m < BITS_LENGTH :: c.bitmap[m] == x.bitmap[m] & y.bitmap[m]
  }

  method UnionBits(x: Container, y: Container) returns (c: Container, card: nat)
    requires x.Bits? && y.Bits? && WellFormed(x) && WellFormed(y)
    ensures c.Bits? && WellFormed(c) && card == |Members(c)|
    ensures UnitedBytes(x, y, c)
  {
    var bits: seq<bv8> := [];
    card := 0;
    var k := 0;
    while k < BITS_LENGTH
      invariant 0 <= k <= BITS_LENGTH && |bits| == k
      invariant forall m | 0 <= m < k :: bits[m] == x.bitmap[m] | y.bitmap[m]
      invariant card == AllBits(bits)
    {
      var b := x.bitmap[k] | y.bitmap[k];
      OneMoreByte(bits, b);
      bits := bits + [b];
      card := card + BitCount(b);
      k := k + 1;
    }
    c := Bits(bits);
    BitsCounted(c);
  }

  lemma UnitedBit(x: Container, y: Container, c: Container, m: nat, k: nat)
    requires BitsOnly(x, y, c) && UnitedBytes(x, y, c) && m < BITS_LENGTH && k < 8
    ensures Bit(c.bitmap[m], k) <==> Bit(x.bitmap[m], k) || Bit(y.bitmap[m], k)
  {
    hide Bit;
    BitOr(x.bitmap[m], y.bitmap[m], c.bitmap[m], k);
  }

  lemma BitsUnited(x: Container, y: Container, c: Container, v: int)
    requires BitsOnly(x, y, c) && UnitedBytes(x, y, c)
    ensures Has(c, v) <==> Has(x, v) || Has(y, v)
  {
    hide Bit, Has, UnitedBytes;
    HasBit(x, v);
    HasBit(y, v);
    HasBit(c, v);
    if 0 <= v < LIMIT {
      UnitedBit(x, y, c, v / 8, v % 8);
    }
  }

  method UnionContainers(x: Container, y: Container) returns (c: Container, card: nat)
    requires WellFormed(x) && WellFormed(y)
    ensures WellFormed(c) && forall v :: Has(c, v) <==> Has(x, v) || Has(y, v)
    ensures card == |Members(c)|
  {
    if x.Bits? && y.Bits? {
      c, card := UnionBits(x, y);
      forall v ensures Has(c, v) <==> Has(x, v) || Has(y, v) {
        BitsUnited(x, y, c, v);
      }
    } else {
      var xs := Values(x);
      var ys := Values(y);
      var zs := MergeUnion(xs, ys);
      c := Pack(zs);
      AscendingSize(zs, Members(c));
      card := |zs|;
    }
  }

  method IntersectBits(x: Container, y: Container) returns (c: Container, card: nat)
    requires x.Bits? && y.Bits? && WellFormed(x) && WellFormed(y)
    ensures c.Bits? && WellFormed(c) && card == |Members(c)|
    ensures CommonBytes(x, y, c)
  {
    var bits: seq<bv8> := [];
    card := 0;
    var k := 0;
    while k < BITS_LENGTH
      invariant 0 <= k <= BITS_LENGTH && |bits| == k
      invariant forall m | 0 <= m < k :: bits[m] == x.bitmap[m] & y.bitmap[m]
      invariant card == AllBits(bits)
    {
      var b := x.bitmap[k] & y.bitmap[k];
      OneMoreByte(bits, b);
      bits := bits + [b];
      card := card + BitCount(b);
      k := k + 1;
    }
    c := Bits(bits);
    BitsCounted(c);
  }

  lemma CommonBit(x: Container, y: Container, c: Container, m: nat, k: nat)
    requires BitsOnly(x, y, c) && CommonBytes(x, y, c) && m < BITS_LENGTH && k < 8
    ensures Bit(c.bitmap[m], k) <==> Bit(x.bitmap[m], k) && Bit(y.bitmap[m], k)
  {
    hide Bit;
    BitAnd(x.bitmap[m], y.bitmap[m], c.bitmap[m], k);
  }

  lemma BitsIntersected(x: Container, y: Container, c: Container, v: int)
    requires BitsOnly(x, y, c) && CommonBytes(x, y, c)
    ensures Has(c, v) <==> Has(x, v) && Has(y, v)
  {
    hide Bit, Has, CommonBytes;
    HasBit(x, v);
    HasBit(y, v);
    HasBit(c, v);
    if 0 <= v < LIMIT {
      CommonBit(x, y, c, v / 8, v % 8);
    }
  }

  /** The common values, and how many there are; none means that no container is needed. */
  method IntersectContainers(x: Container, y: Container) returns (c: Container, card: nat)
    requires WellFormed(x) && WellFormed(y)
    ensures WellFormed(c) && forall v :: Has(c, v) <==> Has(x, v) && Has(y, v)
    ensures card == |Members(c)|
  {
    if x.Bits? && y.Bits? {
      c, card := IntersectBits(x, y);
      forall v ensures Has(c, v) <==> Has(x, v) && Has(y, v) {
        BitsIntersected(x, y, c, v);
      }
    } else {
      var xs := Values(x);
      var ys := Values(y);
      var zs := MergeIntersection(xs, ys);
      c := Pack(zs);
      AscendingSize(zs, Members(c));
      card := |zs|;
    }
  }

  /** `key`, `key >> 8`, `card`, `card >> 8` go into the four bytes of the next slot. */
  method PutEntry(kc: array<byte>, ghost cs: seq<Container>, slot: nat, keyLow: byte, keyHigh: byte,
                  cardLow: byte, cardHigh: byte, ghost c: Container)
    requires slot == |cs| && 4 * slot + 4 <= kc.Length
    modifies kc
    ensures EntriesOf(kc[..], cs + [c]) == EntriesOf(old(kc[..]), cs) +
            [Entry(keyLow + 0x100 * (keyHigh as int), c, cardLow + 0x100 * (cardHigh as int) + 1)]
  {
    kc[4 * slot + 0] := keyLow;
    kc[4 * slot + 1] := keyHigh;
    kc[4 * slot + 2] := cardLow;
    kc[4 * slot + 3] := cardHigh;
  }

  lemma FullSize(c: Container, n: nat)
    requires WellFormed(c) && n <= LIMIT && forall v :: Has(c, v) <==> 0 <= v < n
    ensures |Members(c)| == n
  {
    assert Members(c) == UpTo(n);
  }

  lemma RangeIsFull(c: Container)
    requires c == Run(1, [0, 0, 0xff, 0xff])
    ensures WellFormed(c) && |Members(c)| == LIMIT
    ensures forall v | 0 <= v < LIMIT :: Has(c, v)
  {
    assert RunStart(c, 0) == 0 && RunEnd(c, 0) == 0xffff;
    FullSize(c, LIMIT);
  }

  lemma NotedInBytes(card: int)
    ensures (card - 1) % 0x100 + 0x100 * ((card - 1) / 0x100 % 0x100) + 1 == Noted(card)
  {
  }

  /** A finished bitmap; the byte array of a new one is filled in place before it is wrapped. */
  class RoaringBitmap {
    const keysAndCardinalities: seq<byte>
    const containers: seq<Container>

    ghost predicate Valid() {
      4 * |containers| <= |keysAndCardinalities| && Sorted(Entries())
    }

    ghost function Entries(): (es: seq<Entry>)
      requires 4 * |containers| <= |keysAndCardinalities|
    {
      EntriesOf(keysAndCardinalities, containers)
    }

    /** The set that the bitmap stands for, over all 32-bit numbers. */
    ghost predicate Stored(n: int)
      requires Valid()
    {
      Stores(Entries(), Upper(n), Lower(n))
    }

    /** The numbers that the bitmap stands for. */
    ghost function Numbers(): set<int>
      requires Valid()
    {
      NumbersOf(Entries())
    }

    /** Container `i` has the upper half of `n` for its key, and encodes the lower one. */
    ghost predicate EncodedAt(i: nat, n: int)
      requires Valid() && i < |containers|
    {
      && (keysAndCardinalities[4 * i] as int) + 0x100 * (keysAndCardinalities[4 * i + 1] as int) == n / 0x1_0000
      && WellFormed(containers[i])
      && Encodes(containers[i], n % 0x1_0000)
    }

    /** A number is stored if the bytes of some container say so. */
    lemma StoredIsEncoded(n: int)
      requires Valid()
      ensures Stored(n) <==> exists i :: 0 <= i < |containers| && EncodedAt(i, n)
    {
      var es := Entries();
      StoresSomewhere(es, Upper(n), Lower(n));
      forall i | 0 <= i < |es| ensures EncodedAt(i, n) <==> es[i].key == Upper(n) && Has(es[i].container, Lower(n)) {
        assert InRange(es[i]);
        HasIsEncoded(containers[i], Lower(n));
      }
    }

    constructor (kc: seq<byte>, cs: seq<Container>)
      ensures keysAndCardinalities == kc && containers == cs
    {
      keysAndCardinalities := kc;
      containers := cs;
    }

    /** The bitmap of one number. */
    constructor MakeSingleton(n: int)
      requires 0 <= n < TWO_TO_32
      ensures Valid() && Counted(Entries())
      ensures forall x | 0 <= x < TWO_TO_32 :: Stored(x) <==> x == n
    {
      var v := Lower(n);
      var c := Array(1, [v % 0x100, v / 0x100]);
      keysAndCardinalities := [Upper(n) % 0x100, Upper(n) / 0x100, 0, 0];
      containers := [c];
      new;
      assert Item(c, 0) == v;
      assert forall x :: Has(c, x) <==> x == v;
      assert Members(c) == {v};
      assert Entries() == [] + [Entry(Upper(n), c, 1)];
      forall x | 0 <= x < TWO_TO_32 ensures Stored(x) <==> x == n {
        StoresAppend([], Entry(Upper(n), c, 1), Upper(x), Lower(x));
      }
    }

    /** The bitmap of all numbers: one run under every key. */
    constructor MakeEverything()
      ensures Valid() && IsEverything()
    {
      var range := Run(1, [0, 0, 0xff, 0xff]);
      var bytes: seq<byte> := [];
      var cs: seq<Container> := [];
      var i := 0;
      while i < LIMIT
        invariant 0 <= i <= LIMIT && |bytes| == 4 * i && |cs| == i
        invariant forall k | 0 <= k < i :: cs[k] == range
        invariant forall k | 0 <= k < i :: EntriesOf(bytes, cs)[k] == Entry(k, range, LIMIT)
      {
        bytes := bytes + [i % 0x100, i / 0x100, 0xff, 0xff];
        cs := cs + [range];
        i := i + 1;
      }
      keysAndCardinalities := bytes;
      containers := cs;
      new;
      RangeIsFull(range);
      forall k, v | 0 <= k < LIMIT && 0 <= v < LIMIT ensures Stores(Entries(), k, v) {
        assert Entries()[k].key == k && Has(range, v);
        StoresAt(Entries(), k, v);
      }
    }

    /** The noted counts added up; with right counts, how many numbers there are. */
    method Cardinality() returns (result: int)
      requires Valid()
      ensures result == Total(Entries())
      ensures Counted(Entries()) ==> result == |Numbers()|
    {
      result := 0;
      var i := 0;
      while i < |containers|
        invariant 0 <= i <= |containers| && result == Total(Entries()[..i])
      {
        var card := U16(keysAndCardinalities, 4 * i + 2);
        result := result + card + 1;
        assert Entries()[..i + 1][..i] == Entries()[..i];
        i := i + 1;
      }
      assert Entries()[..i] == Entries();
      if Counted(Entries()) {
        TotalIsSize(Entries());
      }
    }

    /** Copies entry `i` of this bitmap into the next slot of a new one. */
    method CopyEntry(i: nat, kc: array<byte>, cs: seq<Container>)
      requires Valid() && i < |containers| && 4 * |cs| + 4 <= kc.Length
      modifies kc
      ensures EntriesOf(kc[..], cs + [containers[i]]) == EntriesOf(old(kc[..]), cs) + [Entries()[i]]
    {
      var ik := 4 * i;
      assert Entries()[i].key == U16(keysAndCardinalities, ik);
      PutEntry(kc, cs, |cs|, keysAndCardinalities[ik], keysAndCardinalities[ik + 1],
               keysAndCardinalities[ik + 2], keysAndCardinalities[ik + 3], containers[i]);
    }

    /** Puts a container of `card` values under the key of entry `i`; one less is noted, in 16 bits. */
    method PutMerged(i: nat, c: Container, card: nat, kc: array<byte>, cs: seq<Container>)
      requires Valid() && i < |containers| && 4 * |cs| + 4 <= kc.Length
      modifies kc
      ensures EntriesOf(kc[..], cs + [c]) == EntriesOf(old(kc[..]), cs) +
              [Entry(Entries()[i].key, c, Noted(card))]
    {
      var ik := 4 * i;
      assert Entries()[i].key == U16(keysAndCardinalities, ik);
      NotedInBytes(card);
      PutEntry(kc, cs, |cs|, keysAndCardinalities[ik], keysAndCardinalities[ik + 1],
               (card - 1) % 0x100, (card - 1) / 0x100 % 0x100, c);
    }

    method GetContainerId(key: int) returns (id: int)
      requires Valid()
      ensures -1 <= id < |containers|
      ensures id >= 0 ==> Entries()[id].key == key
      ensures id == -1 ==> forall i | 0 <= i < |containers| :: Entries()[i].key != key
    {
      var left, right := 0, |containers| - 1;
      while left <= right
        invariant 0 <= left <= right + 1 <= |containers|
        invariant forall i | 0 <= i < left :: Entries()[i].key < key
        invariant forall i | right < i < |containers| :: Entries()[i].key > key
      {
        var mid := (left + right) / 2;
        var x := (keysAndCardinalities[4 * mid] as int) + 0x100 * (keysAndCardinalities[4 * mid + 1] as int);
        assert x == Entries()[mid].key;
        if x < key {
          left := mid + 1;
        } else if x > key {
          right := mid - 1;
        } else {
          return mid;
        }
      }
      return -1;
    }

    /**
     The shift that extracts the key is signed, so a number from 2^31 on asks for a negative key
     and is never found, stored or not.
     */
    method Contains(n: int) returns (r: bool)
      requires Valid() && 0 <= n < TWO_TO_32
      ensures r <==> n < TWO_TO_31 && Stored(n)
      ensures r <==> n < 0x8000_0000 && exists i :: 0 <= i < |containers| && EncodedAt(i, n)
    {
      StoredIsEncoded(n);
      var signed := if n < TWO_TO_31 then n else n - TWO_TO_32;
      var key := signed / LIMIT;
      var value := signed % LIMIT;
      var mid := GetContainerId(key);
      if mid == -1 {
        StoresNothingElse(Entries(), key, value);
        return false;
      }
      StoresAt(Entries(), mid, value);
      r := ContainerContains(containers[mid], value);
    }

    /** The keys at positions `i` and `j` compared byte by byte, high byte first. */
    method KeyBelow(i: nat, that: RoaringBitmap, j: nat) returns (r: bool)
      requires Valid() && that.Valid() && i < |containers| && j < |that.containers|
      ensures r <==> Entries()[i].key < that.Entries()[j].key
    {
      var ik, jk := 4 * i, 4 * j;
      assert Entries()[i].key == U16(keysAndCardinalities, ik);
      assert that.Entries()[j].key == U16(that.keysAndCardinalities, jk);
      r := keysAndCardinalities[ik + 1] < that.keysAndCardinalities[jk + 1]
           || (keysAndCardinalities[ik + 1] == that.keysAndCardinalities[jk + 1]
               && keysAndCardinalities[ik] < that.keysAndCardinalities[jk]);
    }

    /** Whether entry `i` comes before what is left of `that` from position `j` on. */
    method IsNext(i: nat, that: RoaringBitmap, j: nat) returns (r: bool)
      requires Valid() && that.Valid() && i <= |containers| && j <= |that.containers|
      ensures r <==> i < |containers| && (j < |that.containers| ==> Entries()[i].key < that.Entries()[j].key)
    {
      if i >= |containers| {
        return false;
      }
      if j >= |that.containers| {
        return true;
      }
      r := KeyBelow(i, that, j);
    }

    ghost predicate IsEverything()
      requires Valid()
    {
      && (forall k, v | 0 <= k < LIMIT && 0 <= v < LIMIT :: Stores(Entries(), k, v))
      && Counted(Entries())
    }

    /** `everything` is the shared bitmap of all numbers, recognised by identity. */
    method Union(that: RoaringBitmap, everything: RoaringBitmap) returns (result: RoaringBitmap)
      requires Valid() && that.Valid() && everything.Valid()
      requires everything.IsEverything()
      ensures result.Valid()
      ensures forall k, v :: Stores(result.Entries(), k, v) <==>
                Stores(Entries(), k, v) || Stores(that.Entries(), k, v)
      ensures Counted(Entries()) && Counted(that.Entries()) ==> Counted(result.Entries())
    {
      if |containers| == 0 {
        return that;
      }
      if |that.containers| == 0 {
        return this;
      }
      if this == everything || that == everything {
        forall k, v | Stores(Entries(), k, v) || Stores(that.Entries(), k, v)
          ensures Stores(everything.Entries(), k, v)
        {
          StoredInRange(if Stores(Entries(), k, v) then Entries() else that.Entries(), k, v);
        }
        return everything;
      }
      result := UnionWalk(that);
    }

    /** One entry of either list, or one of both, goes into the new bitmap. */
    method UnionStep(i: nat, that: RoaringBitmap, j: nat, kc: array<byte>, cs: seq<Container>)
      returns (i': nat, j': nat, cs': seq<Container>)
      requires Valid() && that.Valid() && (i < |containers| || j < |that.containers|)
      requires 4 * |cs| + 4 <= kc.Length
      requires Uniting(EntriesOf(kc[..], cs), Entries(), i, that.Entries(), j)
      modifies kc
      ensures i <= i' <= |containers| && j <= j' <= |that.containers| && i + j < i' + j'
      ensures |cs'| == |cs| + 1
      ensures Uniting(EntriesOf(kc[..], cs'), Entries(), i', that.Entries(), j')
    {
      var iFirst := IsNext(i, that, j);
      var jFirst := that.IsNext(j, this, i);
      UnitingSteps(EntriesOf(kc[..], cs), Entries(), i, that.Entries(), j);
      if iFirst {
        CopyEntry(i, kc, cs);
        i', j', cs' := i + 1, j, cs + [containers[i]];
      } else if jFirst {
        that.CopyEntry(j, kc, cs);
        i', j', cs' := i, j + 1, cs + [that.containers[j]];
      } else {
        cs' := UniteEntries(i, that, j, kc, cs);
        i', j' := i + 1, j + 1;
      }
    }

    /** The walk over both entry lists. */
    method UnionWalk(that: RoaringBitmap) returns (result: RoaringBitmap)
      requires Valid() && that.Valid()
      ensures result.Valid() && UnionSoFar(result.Entries(), Entries(), that.Entries())
      ensures Counted(Entries()) && Counted(that.Entries()) ==> Counted(result.Entries())
    {
      var i, il, j, jl := 0, |containers|, 0, |that.containers|;
      var kc := new byte[(il + jl) * 4];
      var cs: seq<Container> := [];
      ghost var a, b := Entries(), that.Entries();
      while i < il || j < jl
        invariant 0 <= i <= il && 0 <= j <= jl && |cs| <= i + j
        invariant Uniting(EntriesOf(kc[..], cs), a, i, b, j)
        decreases il - i + jl - j
      {
        i, j, cs := UnionStep(i, that, j, kc, cs);
      }
      assert a[..i] == a && b[..j] == b;
      result := new RoaringBitmap(kc[..], cs);
    }

    /** Adds the values of two entries with the same key to a new bitmap. */
    method UniteEntries(i: nat, that: RoaringBitmap, j: nat, kc: array<byte>, cs: seq<Container>)
      returns (cs': seq<Container>)
      requires Valid() && that.Valid() && i < |containers| && j < |that.containers|
      requires 4 * |cs| + 4 <= kc.Length && Entries()[i].key == that.Entries()[j].key
      requires Uniting(EntriesOf(kc[..], cs), Entries(), i, that.Entries(), j)
      modifies kc
      ensures |cs'| == |cs| + 1
      ensures Uniting(EntriesOf(kc[..], cs'), Entries(), i + 1, that.Entries(), j + 1)
    {
      var c, card := UnionContainers(containers[i], that.containers[j]);
      UnitingTakesBoth(EntriesOf(kc[..], cs), Entries(), i, that.Entries(), j,
                       Entry(Entries()[i].key, c, Noted(card)));
      PutMerged(i, c, card, kc, cs);
      cs' := cs + [c];
    }

    /** `empty` is the shared bitmap without containers. */
    method Intersection(that: RoaringBitmap, everything: RoaringBitmap, empty: RoaringBitmap)
      returns (result: RoaringBitmap)
      requires Valid() && that.Valid() && everything.Valid() && empty.Valid()
      requires everything.IsEverything()
      requires empty.containers == []
      ensures result.Valid()
      ensures forall k, v :: Stores(result.Entries(), k, v) <==>
                Stores(Entries(), k, v) && Stores(that.Entries(), k, v)
      ensures Counted(Entries()) && Counted(that.Entries()) ==> Counted(result.Entries())
    {
      if |containers| == 0 || |that.containers| == 0 {
        return empty;
      }
      if this == everything || that == everything {
        result := if this == everything then that else this;
        forall k, v | Stores(result.Entries(), k, v) ensures Stores(everything.Entries(), k, v) {
          StoredInRange(result.Entries(), k, v);
        }
        return;
      }
      result := IntersectionWalk(that);
    }

    /** Adds the common values of two entries with the same key to a new bitmap, if there are any. */
    method IntersectEntries(i: nat, that: RoaringBitmap, j: nat, kc: array<byte>, cs: seq<Container>)
      returns (cs': seq<Container>)
      requires Valid() && that.Valid() && i < |containers| && j < |that.containers|
      requires 4 * |cs| + 4 <= kc.Length && Entries()[i].key == that.Entries()[j].key
      requires Walking(EntriesOf(kc[..], cs), Entries(), i, that.Entries(), j)
      modifies kc
      ensures |cs'| <= |cs| + 1
      ensures Walking(EntriesOf(kc[..], cs'), Entries(), i + 1, that.Entries(), j + 1)
    {
      var c, card := IntersectContainers(containers[i], that.containers[j]);
      WalkingTakesBoth(EntriesOf(kc[..], cs), Entries(), i, that.Entries(), j, c, card);
      cs' := cs;
      if card != 0 {
        PutMerged(i, c, card, kc, cs);
        cs' := cs + [c];
      }
    }

    /** Passes the entry with the smaller key, or meets two entries with the same key. */
    method IntersectionStep(i: nat, that: RoaringBitmap, j: nat, kc: array<byte>, cs: seq<Container>)
      returns (i': nat, j': nat, cs': seq<Container>)
      requires Valid() && that.Valid() && i < |containers| && j < |that.containers|
      requires 4 * |cs| + 4 <= kc.Length
      requires Walking(EntriesOf(kc[..], cs), Entries(), i, that.Entries(), j)
      modifies kc
      ensures i <= i' <= |containers| && j <= j' <= |that.containers| && i + j < i' + j'
      ensures |cs'| <= |cs| + 1 && (|cs'| > |cs| ==> i < i' && j < j')
      ensures Walking(EntriesOf(kc[..], cs'), Entries(), i', that.Entries(), j')
    {
      var iFirst := IsNext(i, that, j);
      var jFirst := that.IsNext(j, this, i);
      WalkingSteps(EntriesOf(kc[..], cs), Entries(), i, that.Entries(), j);
      if iFirst {
        i', j', cs' := i + 1, j, cs;
      } else if jFirst {
        i', j', cs' := i, j + 1, cs;
      } else {
        cs' := IntersectEntries(i, that, j, kc, cs);
        i', j' := i + 1, j + 1;
      }
    }

    method IntersectionWalk(that: RoaringBitmap) returns (result: RoaringBitmap)
      requires Valid() && that.Valid()
      ensures result.Valid() && IntersectionSoFar(result.Entries(), Entries(), that.Entries())
      ensures Counted(result.Entries())
    {
      var i, il, j, jl := 0, |containers|, 0, |that.containers|;
      var kc := new byte[(if il > jl then il else jl) * 4];
      var cs: seq<Container> := [];
      ghost var a, b := Entries(), that.Entries();
      while i < il && j < jl
        invariant 0 <= i <= il && 0 <= j <= jl && |cs| <= i && |cs| <= j
        invariant Walking(EntriesOf(kc[..], cs), a, i, b, j)
        decreases il - i + jl - j
      {
        i, j, cs := IntersectionStep(i, that, j, kc, cs);
      }
      IntersectionComplete(EntriesOf(kc[..], cs), a, i, b, j);
      result := new RoaringBitmap(kc[..], cs);
    }
  }

  /** The bitmap of all numbers has 2^31, and when asked for it says no. */
  method HighNumberIsMissed() returns (everything: RoaringBitmap, found: bool)
    ensures everything.Valid() && everything.IsEverything() && everything.Stored(TWO_TO_31) && !found
  {
    everything := new RoaringBitmap.MakeEverything();
    found := everything.Contains(TWO_TO_31);
  }
}
