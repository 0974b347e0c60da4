/**
 The three container kinds of a Roaring bitmap. A container holds a set of 16-bit values, packed
 into bytes: as ranges (`Run`), as a sorted list (`Array`) or as 65536 bits (`Bits`).
 */
module RoaringContainers {
  import opened Basics

  const LIMIT := 0x1_0000
  const BITS_LENGTH := 8192

  /** Bytes are numbers where the program combines them to 16 bits, and bit vectors in `Bits`. */
  datatype Container =
    | Run(runcount: nat, bytes: seq<byte>)
    | Array(cardinality: nat, bytes: seq<byte>)
    | Bits(bitmap: seq<bv8>)

  /** Two bytes, low one first. */
  function U16(a: seq<byte>, i: nat): (r: int)
    requires i + 1 < |a|
    ensures 0 <= r < LIMIT && r % 0x100 == a[i] && r / 0x100 == a[i + 1]
  {
    (a[i] as int) + 0x100 * (a[i + 1] as int)
  }

  function Bit(b: bv8, k: nat): bool
    requires k < 8
  {
    b & (1 << (k as bv4)) != 0
  }

  function RunStart(c: Container, r: nat): int
    requires c.Run? && 4 * r + 3 < |c.bytes|
  {
    U16(c.bytes, 4 * r)
  }

  /** The last value of a run. */
  function RunEnd(c: Container, r: nat): int
    requires c.Run? && 4 * r + 3 < |c.bytes|
  {
    U16(c.bytes, 4 * r) + U16(c.bytes, 4 * r + 2)
  }

  function Item(c: Container, i: nat): int
    requires c.Array? && 2 * i + 1 < |c.bytes|
  {
    U16(c.bytes, 2 * i)
  }

  ghost predicate WellFormed(c: Container) {
    match c
    case Run(n, a) =>
      && 4 * n <= |a|
      && (forall r | 0 <= r < n :: RunEnd(c, r) < LIMIT)
      && (forall r, s | 0 <= r < s < n :: RunEnd(c, r) < RunStart(c, s))
    case Array(n, a) =>
      && 2 * n <= |a|
      && (forall i, j | 0 <= i < j < n :: Item(c, i) < Item(c, j))
    case Bits(a) => |a| == BITS_LENGTH
  }

  /** The set that a container stands for. */
  ghost predicate Has(c: Container, v: int)
    requires WellFormed(c)
  {
    0 <= v < LIMIT &&
    match c
    case Run(n, _) => exists r :: 0 <= r < n && RunStart(c, r) <= v <= RunEnd(c, r)
    case Array(n, _) => exists i :: 0 <= i < n && Item(c, i) == v
    case Bits(a) => Bit(a[v / 8], v % 8)
  }

  ghost function Members(c: Container): set<int>
    requires WellFormed(c)
  {
    set v | 0 <= v < LIMIT && Has(c, v)
  }

  // The same set, read off the stored bytes: little-endian numbers, and binary digits from the lowest.

  ghost predicate InRun(a: seq<byte>, r: nat, v: int)
    requires 4 * r + 3 < |a|
  {
    var start := (a[4 * r] as int) + 0x100 * (a[4 * r + 1] as int);
    var length := (a[4 * r + 2] as int) + 0x100 * (a[4 * r + 3] as int);
    start <= v <= start + length
  }

  ghost predicate AtItem(a: seq<byte>, i: nat, v: int)
    requires 2 * i + 1 < |a|
  {
    v == (a[2 * i] as int) + 0x100 * (a[2 * i + 1] as int)
  }

  ghost predicate Encodes(c: Container, v: int)
    requires WellFormed(c)
  {
    0 <= v < 0x1_0000 &&
    match c
    case Run(n, a) => exists r :: 0 <= r < n && InRun(a, r, v)
    case Array(n, a) => exists i :: 0 <= i < n && AtItem(a, i, v)
    case Bits(a) => (a[v / 8] as int) / Pow2(v % 8) % 2 == 1
  }

  lemma HasIsEncoded(c: Container, v: int)
    requires WellFormed(c)
    ensures Has(c, v) <==> Encodes(c, v)
  {
    hide Bit, Pow2;
    if 0 <= v < LIMIT {
      match c
      case Run(n, a) =>
        forall r | 0 <= r < n ensures InRun(a, r, v) <==> RunStart(c, r) <= v <= RunEnd(c, r) {}
      case Array(n, a) =>
        forall i | 0 <= i < n ensures AtItem(a, i, v) <==> Item(c, i) == v {}
      case Bits(a) =>
        BitIsDigit(a[v / 8], v % 8);
    }
  }

  function One(p: bool): nat {
    if p then 1 else 0
  }

  lemma BinaryDigits(b: bv8)
    ensures b as int == One(Bit(b, 0)) + 2 * One(Bit(b, 1)) + 4 * One(Bit(b, 2)) + 8 * One(Bit(b, 3))
                      + 16 * One(Bit(b, 4)) + 32 * One(Bit(b, 5)) + 64 * One(Bit(b, 6)) + 128 * One(Bit(b, 7))
  {
  }

  /** What the digits below the `k`-th are worth. */
  function LowPart(b: bv8, k: nat): nat
    requires k <= 8
  {
    if k == 0 then 0 else LowPart(b, k - 1) + Pow2(k - 1) * One(Bit(b, k - 1))
  }

  /** What the digits from the `k`-th on are worth, in units of the `k`-th. */
  function HighPart(b: bv8, k: nat): nat
    requires k <= 8
    decreases 8 - k
  {
    if k == 8 then 0 else One(Bit(b, k)) + 2 * HighPart(b, k + 1)
  }

  lemma {:induction false} LowPartFits(b: bv8, k: nat)
    requires k <= 8
    ensures LowPart(b, k) < Pow2(k)
  {
    if k > 0 {
      LowPartFits(b, k - 1);
    }
  }

  lemma AllIsHighPart(b: bv8)
    ensures b as int == HighPart(b, 0)
  {
    hide Bit;
    BinaryDigits(b);
    assert HighPart(b, 7) == One(Bit(b, 7));
    assert HighPart(b, 6) == One(Bit(b, 6)) + 2 * HighPart(b, 7);
    assert HighPart(b, 5) == One(Bit(b, 5)) + 2 * HighPart(b, 6);
    assert HighPart(b, 4) == One(Bit(b, 4)) + 2 * HighPart(b, 5);
    assert HighPart(b, 3) == One(Bit(b, 3)) + 2 * HighPart(b, 4);
    assert HighPart(b, 2) == One(Bit(b, 2)) + 2 * HighPart(b, 3);
    assert HighPart(b, 1) == One(Bit(b, 1)) + 2 * HighPart(b, 2);
  }

  lemma NextDigit(b: bv8, k: nat)
    requires 1 <= k <= 8
    ensures HighPart(b, k - 1) == One(Bit(b, k - 1)) + 2 * HighPart(b, k)
    ensures LowPart(b, k) == LowPart(b, k - 1) + Pow2(k - 1) * One(Bit(b, k - 1))
    ensures Pow2(k) == 2 * Pow2(k - 1)
  {
    hide Bit;
  }

  lemma OneDigitMore(n: int, v: nat, p: nat, d: nat, r: nat, p': nat, v': nat)
    requires n == v + p * (d + 2 * r) && p' == 2 * p && v' == v + p * d
    ensures n == v' + p' * r
  {
    assert p * (d + 2 * r) == p * d + p * (2 * r);
    assert p * (2 * r) == (2 * p) * r;
  }

  lemma {:induction false} LowAndHigh(b: bv8, k: nat)
    requires k <= 8
    ensures b as int == LowPart(b, k) + Pow2(k) * HighPart(b, k)
  {
    hide Bit, HighPart, One;
    if k == 0 {
      AllIsHighPart(b);
    } else {
      LowAndHigh(b, k - 1);
      NextDigit(b, k);
      OneDigitMore(b as int, LowPart(b, k - 1), Pow2(k - 1), One(Bit(b, k - 1)), HighPart(b, k), Pow2(k),
                   LowPart(b, k));
    }
  }

  /** The `k`-th bit is the `k`-th binary digit, counted from the lowest. */
  lemma BitIsDigit(b: bv8, k: nat)
    requires k < 8
    ensures Bit(b, k) <==> (b as int) / Pow2(k) % 2 == 1
  {
    hide Bit;
    LowAndHigh(b, k);
    LowPartFits(b, k);
    QuotientIs(b as int, Pow2(k), LowPart(b, k), HighPart(b, k));
  }

  // Membership tests.

  method RunContains(c: Container, value: int) returns (r: bool)
    requires c.Run? && WellFormed(c) && 0 <= value < LIMIT
    ensures r <==> Has(c, value)
  {
    var left, right := 0, c.runcount - 1;
    while left <= right
      invariant 0 <= left <= right + 1 <= c.runcount
      invariant forall x | 0 <= x < left :: RunEnd(c, x) < value
      invariant forall x | right < x < c.runcount :: value < RunStart(c, x)
    {
      var mid := (left + right) / 2;
      var start := U16(c.bytes, 4 * mid);
      var lenm1 := U16(c.bytes, 4 * mid + 2);
      assert start == RunStart(c, mid) && start + lenm1 == RunEnd(c, mid);
      if start + lenm1 < value {
        left := mid + 1;
      } else if start > value {
        right := mid - 1;
      } else {
        return true;
      }
    }
    return false;
  }

  method ArrayContains(c: Container, value: int) returns (r: bool)
    requires c.Array? && WellFormed(c) && 0 <= value < LIMIT
    ensures r <==> Has(c, value)
  {
    var left, right := 0, c.cardinality - 1;
    while left <= right
      invariant 0 <= left <= right + 1 <= c.cardinality
      invariant forall x | 0 <= x < left :: Item(c, x) < value
      invariant forall x | right < x < c.cardinality :: value < Item(c, x)
    {
      var mid := (left + right) / 2;
      var x := U16(c.bytes, 2 * mid);
      assert x == Item(c, mid);
      if x < value {
        left := mid + 1;
      } else if x > value {
        right := mid - 1;
      } else {
        return true;
      }
    }
    return false;
  }

  method ContainerContains(c: Container, value: int) returns (r: bool)
    requires WellFormed(c) && 0 <= value < LIMIT
    ensures r <==> Has(c, value)
    ensures r <==> Encodes(c, value)
  {
    HasIsEncoded(c, value);
    match c
    case Run(_, _) => r := RunContains(c, value);
    case Array(_, _) => r := ArrayContains(c, value);
    case Bits(a) => r := Bit(a[value / 8], value % 8);
  }

  // The values of a container, in order.

  ghost predicate Ascending(s: seq<int>) {
    forall i, j | 0 <= i < j < |s| :: s[i] < s[j]
  }

  lemma AscendingAppend(s: seq<int>, v: int)
    requires Ascending(s) && forall x | x in s :: x < v
    ensures Ascending(s + [v])
  {
    forall i | 0 <= i < |s| ensures s[i] < v {
      assert s[i] in s;
    }
  }

  /** `vs` lists the elements of `c` below `bound`. */
  ghost predicate Lists(vs: seq<int>, c: Container, bound: int)
    requires WellFormed(c)
  {
    && Ascending(vs)
    && (forall v | v in vs :: Has(c, v) && v < bound)
    && (forall v | Has(c, v) && v < bound :: v in vs)
  }

  method RunValues(c: Container) returns (vs: seq<int>)
    requires c.Run? && WellFormed(c)
    ensures Lists(vs, c, LIMIT)
  {
    vs := [];
    var i := 0;
    while i < c.runcount
      invariant 0 <= i <= c.runcount
      invariant Ascending(vs)
      invariant forall v | v in vs :: exists r :: 0 <= r < i && RunStart(c, r) <= v <= RunEnd(c, r)
      invariant forall r, v | 0 <= r < i && RunStart(c, r) <= v <= RunEnd(c, r) :: v in vs
    {
      var start := U16(c.bytes, 4 * i);
      var lenm1 := U16(c.bytes, 4 * i + 2);
      assert start == RunStart(c, i) && start + lenm1 == RunEnd(c, i);
      ghost var before := vs;
      var value, j := start, 0;
      while j <= lenm1
        invariant 0 <= j <= lenm1 + 1 && value == start + j
        invariant Ascending(vs)
        invariant forall v :: v in vs <==> v in before || start <= v < value
        invariant forall v | v in before :: v < start
      {
        AscendingAppend(vs, value);
        vs := vs + [value];
        value := value + 1;
        j := j + 1;
      }
      i := i + 1;
    }
  }

  method ArrayValues(c: Container) returns (vs: seq<int>)
    requires c.Array? && WellFormed(c)
    ensures Lists(vs, c, LIMIT)
  {
    vs := [];
    var i := 0;
    while i < c.cardinality
      invariant 0 <= i <= c.cardinality
      invariant |vs| == i && forall x | 0 <= x < i :: vs[x] == Item(c, x)
    {
      vs := vs + [U16(c.bytes, 2 * i)];
      i := i + 1;
    }
    forall v | Has(c, v) ensures v in vs {
      var x :| 0 <= x < c.cardinality && Item(c, x) == v;
      assert vs[x] == v;
    }
  }

  method BitsValues(c: Container) returns (vs: seq<int>)
    requires c.Bits? && WellFormed(c)
    ensures Lists(vs, c, LIMIT)
  {
    vs := [];
    var i, l := 0, |c.bitmap| * 8;
    while i < l
      invariant 0 <= i <= l == LIMIT
      invariant Lists(vs, c, i)
    {
      if Bit(c.bitmap[i / 8], i % 8) {
        assert Has(c, i);
        AscendingAppend(vs, i);
        vs := vs + [i];
      }
      i := i + 1;
    }
  }

  method Values(c: Container) returns (vs: seq<int>)
    requires WellFormed(c)
    ensures Ascending(vs) && forall v :: v in vs <==> Has(c, v)
    ensures forall v :: v in vs <==> Encodes(c, v)
  {
    forall v ensures Has(c, v) <==> Encodes(c, v) {
      HasIsEncoded(c, v);
    }
    match c
    case Run(_, _) => vs := RunValues(c);
    case Array(_, _) => vs := ArrayValues(c);
    case Bits(_) => vs := BitsValues(c);
  }

  // Merging two ascending value streams.

  method MergeUnion(xs: seq<int>, ys: seq<int>) returns (zs: seq<int>)
    requires Ascending(xs) && Ascending(ys)
    ensures Ascending(zs) && forall v :: v in zs <==> v in xs || v in ys
  {
    zs := [];
    var i, j := 0, 0;
    while j < |ys| || i < |xs|
      invariant 0 <= i <= |xs| && 0 <= j <= |ys|
      invariant Ascending(zs)
      invariant forall v :: v in zs <==> v in xs[..i] || v in ys[..j]
      invariant i < |xs| ==> forall v | v in zs :: v < xs[i]
      invariant j < |ys| ==> forall v | v in zs :: v < ys[j]
      decreases |xs| - i + |ys| - j
    {
      if j == |ys| || (i < |xs| && xs[i] < ys[j]) {
        AscendingAppend(zs, xs[i]);
        zs := zs + [xs[i]];
        assert xs[..i + 1] == xs[..i] + [xs[i]];
        i := i + 1;
      } else if i == |xs| || ys[j] < xs[i] {
        AscendingAppend(zs, ys[j]);
        zs := zs + [ys[j]];
        assert ys[..j + 1] == ys[..j] + [ys[j]];
        j := j + 1;
      } else {
        AscendingAppend(zs, xs[i]);
        zs := zs + [xs[i]];
        assert xs[..i + 1] == xs[..i] + [xs[i]];
        assert ys[..j + 1] == ys[..j] + [ys[j]];
        i := i + 1;
        j := j + 1;
      }
    }
  }

  /** Once one stream is exhausted, the rest of the other has nothing in common with it. */
  lemma RestIsDisjoint(xs: seq<int>, ys: seq<int>, j: nat)
    requires Ascending(ys) && j <= |ys|
    requires j < |ys| ==> forall v | v in xs :: v < ys[j]
    ensures forall v | v in xs && v in ys :: v in ys[..j]
  {
    forall v | v in xs && v in ys ensures v in ys[..j] {
      var y :| 0 <= y < |ys| && ys[y] == v;
      assert y < j;
      assert ys[..j][y] == v;
    }
  }

  method MergeIntersection(xs: seq<int>, ys: seq<int>) returns (zs: seq<int>)
    requires Ascending(xs) && Ascending(ys)
    ensures Ascending(zs) && forall v :: v in zs <==> v in xs && v in ys
  {
    zs := [];
    var i, j := 0, 0;
    while j < |ys| && i < |xs|
      invariant 0 <= i <= |xs| && 0 <= j <= |ys|
      invariant Ascending(zs)
      invariant forall v :: v in zs <==> v in xs[..i] && v in ys[..j]
      invariant i < |xs| ==> forall v | v in ys[..j] :: v < xs[i]
      invariant j < |ys| ==> forall v | v in xs[..i] :: v < ys[j]
      decreases |xs| - i + |ys| - j
    {
      if xs[i] < ys[j] {
        assert xs[..i + 1] == xs[..i] + [xs[i]];
        i := i + 1;
      } else if ys[j] < xs[i] {
        assert ys[..j + 1] == ys[..j] + [ys[j]];
        j := j + 1;
      } else {
        AscendingAppend(zs, xs[i]);
        zs := zs + [xs[i]];
        assert xs[..i + 1] == xs[..i] + [xs[i]];
        assert ys[..j + 1] == ys[..j] + [ys[j]];
        i := i + 1;
        j := j + 1;
      }
    }
    if i == |xs| {
      assert xs[..i] == xs;
      RestIsDisjoint(xs, ys, j);
    } else {
      assert ys[..j] == ys;
      RestIsDisjoint(ys, xs, i);
    }
  }

  /** Packs ascending values into an `Array` container. */
  method Pack(vs: seq<int>) returns (c: Container)
    requires Ascending(vs) && forall v | v in vs :: 0 <= v < LIMIT
    ensures WellFormed(c) && c.Array? && forall v :: Has(c, v) <==> v in vs
  {
    var a: seq<byte> := [];
    var i := 0;
    while i < |vs|
      invariant 0 <= i <= |vs| && |a| == 2 * i
      invariant forall x | 0 <= x < i :: U16(a, 2 * x) == vs[x]
    {
      assert vs[i] in vs;
      a := a + [vs[i] % 0x100, vs[i] / 0x100];
      i := i + 1;
    }
    c := Array(|vs|, a);
    assert forall x | 0 <= x < |vs| :: Item(c, x) == vs[x];
  }

  // Bit containers byte by byte.

  function BitCount(b: bv8): nat {
    var n := b as bv32;
    var n1 := n - ((n >> 1) & 0x5555_5555);
    var n2 := (n1 & 0x3333_3333) + ((n1 >> 2) & 0x3333_3333);
    ((((n2 + (n2 >> 4)) & 0x0F0F_0F0F) * 0x0101_0101) >> 24) as nat
  }

  lemma HasBit(c: Container, v: int)
    requires c.Bits? && WellFormed(c)
    ensures Has(c, v) <==> 0 <= v < LIMIT && Bit(c.bitmap[v / 8], v % 8)
  {
    hide Bit;
  }

  lemma BitOr(x: bv8, y: bv8, z: bv8, k: nat)
    requires k < 8 && z == x | y
    ensures Bit(z, k) <==> Bit(x, k) || Bit(y, k)
  {
  }

  lemma BitAnd(x: bv8, y: bv8, z: bv8, k: nat)
    requires k < 8 && z == x & y
    ensures Bit(z, k) <==> Bit(x, k) && Bit(y, k)
  {
  }

  // How many values a container has.

  ghost function UpTo(n: nat): (r: set<int>)
    ensures |r| == n && forall v :: v in r <==> 0 <= v < n
  {
    if n == 0 then {} else UpTo(n - 1) + {n - 1}
  }

  lemma MembersFit(c: Container)
    requires WellFormed(c)
    ensures |Members(c)| <= LIMIT
  {
    SubsetSize(Members(c), UpTo(LIMIT));
  }

  lemma {:induction false} AscendingSize(vs: seq<int>, s: set<int>)
    requires Ascending(vs) && forall v :: v in s <==> v in vs
    ensures |s| == |vs|
  {
    if vs == [] {
      assert forall v :: v !in s;
      assert s == {};
    } else {
      var n := |vs| - 1;
      assert vs == vs[..n] + [vs[n]];
      AscendingSize(vs[..n], s - {vs[n]});
    }
  }

  function BitsIn(b: bv8, k: nat): nat
    requires k <= 8
  {
    if k == 0 then 0 else BitsIn(b, k - 1) + One(Bit(b, k - 1))
  }

  /** The shifts and masks of the population count count bits. */
  lemma BitCountCounts(b: bv8)
    ensures BitCount(b) == BitsIn(b, 8)
  {
    EightBits(b);
    assert BitsIn(b, 1) == One(Bit(b, 0));
    assert BitsIn(b, 2) == BitsIn(b, 1) + One(Bit(b, 1));
    assert BitsIn(b, 4) == BitsIn(b, 2) + One(Bit(b, 2)) + One(Bit(b, 3));
    assert BitsIn(b, 6) == BitsIn(b, 4) + One(Bit(b, 4)) + One(Bit(b, 5));
  }

  lemma EightBits(b: bv8)
    ensures BitCount(b) == One(Bit(b, 0)) + One(Bit(b, 1)) + One(Bit(b, 2)) + One(Bit(b, 3))
                         + One(Bit(b, 4)) + One(Bit(b, 5)) + One(Bit(b, 6)) + One(Bit(b, 7))
  {
  }

  /** How many of the first `n` bits are set. */
  function BitsBelow(bits: seq<bv8>, n: nat): nat
    requires n <= 8 * |bits|
  {
    if n == 0 then 0 else BitsBelow(bits, n - 1) + One(Bit(bits[(n - 1) / 8], (n - 1) % 8))
  }

  lemma {:induction false} BitsOfByte(bits: seq<bv8>, m: nat, k: nat)
    requires m < |bits| && k <= 8
    ensures BitsBelow(bits, 8 * m + k) == BitsBelow(bits, 8 * m) + BitsIn(bits[m], k)
  {
    if k > 0 {
      BitsOfByte(bits, m, k - 1);
      assert (8 * m + k - 1) / 8 == m && (8 * m + k - 1) % 8 == k - 1;
    }
  }

  function AllBits(bits: seq<bv8>): nat {
    BitsBelow(bits, 8 * |bits|)
  }

  lemma {:induction false} BitsBelowKept(bits: seq<bv8>, b: bv8, n: nat)
    requires n <= 8 * |bits|
    ensures BitsBelow(bits + [b], n) == BitsBelow(bits, n)
  {
    if n > 0 {
      BitsBelowKept(bits, b, n - 1);
    }
  }

  /** One more byte adds the bits that are counted in it. */
  lemma OneMoreByte(bits: seq<bv8>, b: bv8)
    ensures AllBits(bits + [b]) == AllBits(bits) + BitCount(b)
  {
    BitsBelowKept(bits, b, 8 * |bits|);
    BitsOfByte(bits + [b], |bits|, 8);
    BitCountCounts(b);
  }

  ghost function Below(s: set<int>, n: int): set<int> {
    set v | v in s && v < n
  }

  lemma OneMoreBelow(s: set<int>, n: int)
    ensures |Below(s, n + 1)| == |Below(s, n)| + One(n in s)
  {
    assert Below(s, n + 1) == Below(s, n) + if n in s then {n} else {};
  }

  lemma {:induction false} BitsBelowCount(c: Container, n: nat)
    requires c.Bits? && WellFormed(c) && n <= LIMIT
    ensures |Below(Members(c), n)| == BitsBelow(c.bitmap, n)
  {
    if n == 0 {
      assert Below(Members(c), 0) == {};
    } else {
      BitsBelowCount(c, n - 1);
      OneMoreBelow(Members(c), n - 1);
    }
  }

  /** The bits of a bit container are its values. */
  lemma BitsCounted(c: Container)
    requires c.Bits? && WellFormed(c)
    ensures AllBits(c.bitmap) == |Members(c)|
  {
    BitsBelowCount(c, LIMIT);
    assert Members(c) == Below(Members(c), LIMIT);
  }
}
