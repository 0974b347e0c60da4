/**
 The edit distance of the search page: optimal string alignment with a cut-off.

 `Alignment` says what the distance is, with no reference to any table: the cost of a cheapest
 script of single-character edits and swaps of neighbours. `EditDistance` is the three-row
 computation over arrays that are reused from call to call.
 */
module Alignment {
  import opened Basics

  function Min(x: int, y: int): int {
    if x < y then x else y
  }

  /** One step of a script that reads the source and writes the target, left to right. */
  datatype Edit =
    | Keep(kept: char)
    | Substitute(removed: char, written: char)
    | Insert(inserted: char)
    | Delete(deleted: char)
    | Swap(first: char, second: char)
  {
    function Reads(): string {
      match this
      case Keep(c) => [c]
      case Substitute(c, _) => [c]
      case Insert(_) => []
      case Delete(c) => [c]
      case Swap(c, d) => [c, d]
    }

    function Writes(): string {
      match this
      case Keep(c) => [c]
      case Substitute(_, d) => [d]
      case Insert(d) => [d]
      case Delete(_) => []
      case Swap(c, d) => [d, c]
    }

    function Price(): nat {
      if Keep? then 0 else 1
    }

    /** The same edit, for strings read from right to left. */
    function Mirrored(): Edit {
      match this
      case Swap(c, d) => Swap(d, c)
      case _ => this
    }
  }

  /** The pieces that the edits of a script stand for, left to right. */
  function Gathered(script: seq<Edit>, piece: Edit -> string): string {
    if script == [] then "" else Gathered(script[..|script| - 1], piece) + piece(script[|script| - 1])
  }

  function ReadsOf(e: Edit): string { e.Reads() }

  function WritesOf(e: Edit): string { e.Writes() }

  function Source(script: seq<Edit>): string {
    Gathered(script, ReadsOf)
  }

  function Target(script: seq<Edit>): string {
    Gathered(script, WritesOf)
  }

  function Cost(script: seq<Edit>): nat {
    if script == [] then 0 else Cost(script[..|script| - 1]) + script[|script| - 1].Price()
  }

  ghost predicate Transforms(script: seq<Edit>, a: string, b: string) {
    Source(script) == a && Target(script) == b
  }

  /** `d` is the cost of a cheapest script from `a` to `b`. */
  ghost predicate IsDistance(a: string, b: string, d: nat) {
    && (exists script :: Transforms(script, a, b) && Cost(script) == d)
    && (forall script | Transforms(script, a, b) :: d <= Cost(script))
  }

  /** The recurrence: the distance between the first `i` characters of `a` and the first `j` of `b`. */
  function Prefixes(a: string, b: string, i: nat, j: nat): nat
    requires i <= |a| && j <= |b|
    decreases i + j
  {
    if i == 0 then j
    else if j == 0 then i
    else
      var plain := Combined(Prefixes(a, b, i - 1, j), Prefixes(a, b, i, j - 1), Prefixes(a, b, i - 1, j - 1),
                            if a[i - 1] == b[j - 1] then 0 else 1);
      if Swappable(a, b, i, j) then Min(plain, Prefixes(a, b, i - 2, j - 2) + 1) else plain
  }

  /** How one entry of the table follows from its neighbours. */
  function Combined(above: nat, left: nat, diagonal: nat, substitutionCost: nat): nat {
    Min(Min(above + 1, left + 1), diagonal + substitutionCost)
  }

  lemma CombinedSymmetric(x: nat, y: nat, z: nat, c: nat)
    ensures Combined(x, y, z, c) == Combined(y, x, z, c)
  {
  }

  predicate Swappable(a: string, b: string, i: nat, j: nat)
    requires i <= |a| && j <= |b|
  {
    i > 1 && j > 1 && a[i - 1] == b[j - 2] && a[i - 2] == b[j - 1]
  }

  function Osa(a: string, b: string): nat {
    Prefixes(a, b, |a|, |b|)
  }

  /** The definition of one entry; the proofs below unfold it nowhere else. */
  lemma Recurrence(a: string, b: string, i: nat, j: nat)
    requires i <= |a| && j <= |b|
    ensures i == 0 ==> Prefixes(a, b, i, j) == j
    ensures j == 0 ==> Prefixes(a, b, i, j) == i
    ensures i > 0 && j > 0 ==>
              var plain := Combined(Prefixes(a, b, i - 1, j), Prefixes(a, b, i, j - 1), Prefixes(a, b, i - 1, j - 1),
                                    if a[i - 1] == b[j - 1] then 0 else 1);
              Prefixes(a, b, i, j) ==
              if Swappable(a, b, i, j) then Min(plain, Prefixes(a, b, i - 2, j - 2) + 1) else plain
  {
  }

  lemma {:induction false} OnlyPrefixesMatter(a: string, b: string, a': string, b': string, i: nat, j: nat)
    requires i <= |a| && j <= |b| && i <= |a'| && j <= |b'|
    requires a[..i] == a'[..i] && b[..j] == b'[..j]
    ensures Prefixes(a, b, i, j) == Prefixes(a', b', i, j)
    decreases i + j
  {
    hide Prefixes;
    Recurrence(a, b, i, j);
    Recurrence(a', b', i, j);
    if i > 0 && j > 0 {
      assert forall x | 0 <= x < i :: a[x] == a[..i][x] == a'[x];
      assert forall x | 0 <= x < j :: b[x] == b[..j][x] == b'[x];
      OnlyPrefixesMatter(a, b, a', b', i - 1, j);
      OnlyPrefixesMatter(a, b, a', b', i, j - 1);
      OnlyPrefixesMatter(a, b, a', b', i - 1, j - 1);
      if Swappable(a, b, i, j) {
        OnlyPrefixesMatter(a, b, a', b', i - 2, j - 2);
      }
    }
  }

  lemma OneCharacterEach(a: string, b: string, i: nat, j: nat)
    requires i < |a| && j < |b|
    ensures Prefixes(a, b, i + 1, j + 1) <= Prefixes(a, b, i, j) + if a[i] == b[j] then 0 else 1
  {
    hide Prefixes;
    Recurrence(a, b, i + 1, j + 1);
  }

  lemma OneCharacter(a: string, b: string, i: nat, j: nat)
    requires i <= |a| && j <= |b|
    ensures i < |a| ==> Prefixes(a, b, i + 1, j) <= Prefixes(a, b, i, j) + 1
    ensures j < |b| ==> Prefixes(a, b, i, j + 1) <= Prefixes(a, b, i, j) + 1
  {
    hide Prefixes;
    Recurrence(a, b, i, j);
    if i < |a| {
      Recurrence(a, b, i + 1, j);
    }
    if j < |b| {
      Recurrence(a, b, i, j + 1);
    }
  }

  lemma TwoSwapped(a: string, b: string, i: nat, j: nat)
    requires i + 1 < |a| && j + 1 < |b| && a[i] == b[j + 1] && a[i + 1] == b[j]
    ensures Prefixes(a, b, i + 2, j + 2) <= Prefixes(a, b, i, j) + 1
  {
    hide Prefixes;
    Recurrence(a, b, i + 2, j + 2);
  }

  /** One more edit costs at most its price. */
  lemma OsaExtends(a: string, b: string, e: Edit)
    ensures Osa(a + e.Reads(), b + e.Writes()) <= Osa(a, b) + e.Price()
  {
    hide Prefixes;
    var a', b' := a + e.Reads(), b + e.Writes();
    OnlyPrefixesMatter(a, b, a', b', |a|, |b|);
    match e
    case Keep(_) => OneCharacterEach(a', b', |a|, |b|);
    case Substitute(_, _) => OneCharacterEach(a', b', |a|, |b|);
    case Insert(_) => OneCharacter(a', b', |a|, |b|);
    case Delete(_) => OneCharacter(a', b', |a|, |b|);
    case Swap(_, _) => TwoSwapped(a', b', |a|, |b|);
  }

  lemma {:induction false} NoScriptIsCheaper(script: seq<Edit>)
    ensures Osa(Source(script), Target(script)) <= Cost(script)
  {
    if script != [] {
      var rest := script[..|script| - 1];
      NoScriptIsCheaper(rest);
      OsaExtends(Source(rest), Target(rest), script[|script| - 1]);
    }
  }

  lemma Appended(script: seq<Edit>, e: Edit)
    ensures Source(script + [e]) == Source(script) + e.Reads()
    ensures Target(script + [e]) == Target(script) + e.Writes()
    ensures Cost(script + [e]) == Cost(script) + e.Price()
  {
    assert (script + [e])[..|script|] == script;
  }

  /** The neighbour that an entry of the table comes from. */
  lemma ComesFrom(a: string, b: string, i: nat, j: nat) returns (i': nat, j': nat)
    requires 1 <= i <= |a| && 1 <= j <= |b|
    ensures i - 2 <= i' && j - 2 <= j'
    ensures (i', j') in {(i - 1, j), (i, j - 1), (i - 1, j - 1)}
            || (i' == i - 2 && j' == j - 2 && Swappable(a, b, i, j))
    ensures Prefixes(a, b, i, j) == Prefixes(a, b, i', j') +
            if i' == i - 1 && j' == j - 1 && a[i - 1] == b[j - 1] then 0 else 1
  {
    hide Prefixes;
    Recurrence(a, b, i, j);
    var d, above, left := Prefixes(a, b, i, j), Prefixes(a, b, i - 1, j), Prefixes(a, b, i, j - 1);
    var diagonal, same := Prefixes(a, b, i - 1, j - 1), a[i - 1] == b[j - 1];
    if d == Combined(above, left, diagonal, if same then 0 else 1) {
      if d == above + 1 {
        i', j' := i - 1, j;
      } else if d == left + 1 {
        i', j' := i, j - 1;
      } else {
        i', j' := i - 1, j - 1;
      }
    } else {
      i', j' := i - 2, j - 2;
    }
  }

  /** The last edit of a cheapest script, and how much of either string it leaves over. */
  lemma LastEdit(a: string, b: string, i: nat, j: nat) returns (e: Edit, i': nat, j': nat)
    requires i <= |a| && j <= |b| && i + j > 0
    ensures i' <= i && j' <= j && i' + j' < i + j
    ensures a[i'..i] == e.Reads() && b[j'..j] == e.Writes()
    ensures Prefixes(a, b, i, j) == Prefixes(a, b, i', j') + e.Price()
  {
    hide Prefixes;
    Recurrence(a, b, i, j);
    if i == 0 {
      e, i', j' := Insert(b[j - 1]), i, j - 1;
      Recurrence(a, b, i', j');
    } else if j == 0 {
      e, i', j' := Delete(a[i - 1]), i - 1, j;
      Recurrence(a, b, i', j');
    } else {
      i', j' := ComesFrom(a, b, i, j);
      e := if j' == j then Delete(a[i - 1])
           else if i' == i then Insert(b[j - 1])
           else if i' == i - 2 then Swap(a[i - 2], a[i - 1])
           else if a[i - 1] == b[j - 1] then Keep(a[i - 1])
           else Substitute(a[i - 1], b[j - 1]);
    }
  }

  lemma {:induction false} SomeScriptAttains(a: string, b: string, i: nat, j: nat) returns (script: seq<Edit>)
    requires i <= |a| && j <= |b|
    ensures Transforms(script, a[..i], b[..j]) && Cost(script) == Prefixes(a, b, i, j)
    decreases i + j
  {
    hide Prefixes;
    if i == 0 && j == 0 {
      Recurrence(a, b, i, j);
      script := [];
    } else {
      var e, i', j' := LastEdit(a, b, i, j);
      var rest := SomeScriptAttains(a, b, i', j');
      Appended(rest, e);
      script := rest + [e];
      assert a[..i] == a[..i'] + a[i'..i] == Source(script);
      assert b[..j] == b[..j'] + b[j'..j] == Target(script);
    }
  }

  lemma BestScript(a: string, b: string) returns (script: seq<Edit>)
    ensures Transforms(script, a, b) && Cost(script) == Osa(a, b)
  {
    script := SomeScriptAttains(a, b, |a|, |b|);
    assert a[..|a|] == a && b[..|b|] == b;
  }

  /** The recurrence computes the cost of a cheapest script. */
  lemma OsaIsDistance(a: string, b: string)
    ensures IsDistance(a, b, Osa(a, b))
  {
    var best := BestScript(a, b);
    forall script | Transforms(script, a, b) ensures Osa(a, b) <= Cost(script) {
      NoScriptIsCheaper(script);
    }
  }

  lemma {:induction false} FreeScriptsChangeNothing(script: seq<Edit>)
    ensures Cost(script) == 0 ==> Source(script) == Target(script)
  {
    if script != [] {
      FreeScriptsChangeNothing(script[..|script| - 1]);
    }
  }

  // Symmetry, bounds, and cancelling at the end: by the recurrence.

  lemma {:induction false} PrefixesSymmetric(a: string, b: string, i: nat, j: nat)
    requires i <= |a| && j <= |b|
    ensures Prefixes(a, b, i, j) == Prefixes(b, a, j, i)
    decreases i + j
  {
    hide Prefixes;
    Recurrence(a, b, i, j);
    Recurrence(b, a, j, i);
    if i > 0 && j > 0 {
      PrefixesSymmetric(a, b, i - 1, j);
      PrefixesSymmetric(a, b, i, j - 1);
      PrefixesSymmetric(a, b, i - 1, j - 1);
      CombinedSymmetric(Prefixes(a, b, i - 1, j), Prefixes(a, b, i, j - 1), Prefixes(a, b, i - 1, j - 1),
                        if a[i - 1] == b[j - 1] then 0 else 1);
      if Swappable(a, b, i, j) {
        PrefixesSymmetric(a, b, i - 2, j - 2);
      }
    }
  }

  lemma OsaSymmetric(a: string, b: string)
    ensures Osa(a, b) == Osa(b, a)
  {
    PrefixesSymmetric(a, b, |a|, |b|);
  }

  lemma {:induction false} LengthGapBound(a: string, b: string, i: nat, j: nat)
    requires i <= |a| && j <= |b|
    ensures i - j <= Prefixes(a, b, i, j)
    decreases i + j
  {
    hide Prefixes;
    if i + j > 0 {
      var e, i', j' := LastEdit(a, b, i, j);
      LengthGapBound(a, b, i', j');
    }
  }

  /** Dropping the last character of `a` lowers or raises the distance by at most one. */
  lemma {:induction false} DroppingOneCostsOne(a: string, b: string, i: nat, j: nat)
    requires 1 <= i <= |a| && j <= |b|
    ensures Prefixes(a, b, i - 1, j) <= Prefixes(a, b, i, j) + 1
    decreases j
  {
    hide Prefixes;
    Recurrence(a, b, i - 1, j);
    Recurrence(a, b, i, j);
    if j > 0 {
      DroppingOneCostsOne(a, b, i, j - 1);
      OneCharacter(a, b, i - 1, j - 1);
      if Swappable(a, b, i, j) {
        OneCharacterEach(a, b, i - 2, j - 2);
      }
    }
  }

  lemma AgainstNothing(a: string, b: string)
    requires b == ""
    ensures Osa(a, b) == |a|
  {
    Recurrence(a, b, |a|, |b|);
  }

  lemma SuffixCancels(a: string, b: string, c: char)
    ensures Osa(a + [c], b + [c]) == Osa(a, b)
  {
    hide Prefixes;
    var a', b' := a + [c], b + [c];
    var m, n := |a|, |b|;
    OnlyPrefixesMatter(a, b, a', b', m, n);
    DroppingOneCostsOne(a', b', m + 1, n);
    DroppingOneCostsOne(b', a', n + 1, m);
    PrefixesSymmetric(a', b', m, n);
    PrefixesSymmetric(a', b', m, n + 1);
    Recurrence(a', b', m + 1, n + 1);
    if m > 0 && n > 0 {
      OneCharacterEach(a', b', m - 1, n - 1);
    }
  }

  // Cancelling at the front: by mirroring the script.

  function Reversed<T>(s: seq<T>): (r: seq<T>)
    ensures |r| == |s|
  {
    if s == [] then [] else Reversed(s[1..]) + [s[0]]
  }

  function MirroredScript(script: seq<Edit>): seq<Edit> {
    if script == [] then [] else [script[|script| - 1].Mirrored()] + MirroredScript(script[..|script| - 1])
  }

  lemma {:induction false} ReversedAppend<T>(s: seq<T>, t: seq<T>)
    ensures Reversed(s + t) == Reversed(t) + Reversed(s)
  {
    if s == [] {
      assert s + t == t;
    } else {
      assert (s + t)[1..] == s[1..] + t;
      ReversedAppend(s[1..], t);
    }
  }

  lemma {:induction false} ReversedTwice<T>(s: seq<T>)
    ensures Reversed(Reversed(s)) == s
  {
    if s != [] {
      ReversedAppend(Reversed(s[1..]), [s[0]]);
      ReversedTwice(s[1..]);
      assert Reversed([s[0]]) == [s[0]];
    }
  }

  lemma {:induction false} GatheredFromFront(script: seq<Edit>, e: Edit, piece: Edit -> string)
    ensures Gathered([e] + script, piece) == piece(e) + Gathered(script, piece)
  {
    if script == [] {
      assert ([e] + script)[..0] == [];
    } else {
      var rest, last := script[..|script| - 1], script[|script| - 1];
      GatheredFromFront(rest, e, piece);
      assert ([e] + script)[..|script|] == [e] + rest;
      Associative(piece(e), Gathered(rest, piece), piece(last));
    }
  }

  lemma {:induction false} CostFromFront(script: seq<Edit>, e: Edit)
    ensures Cost([e] + script) == e.Price() + Cost(script)
  {
    if script == [] {
      assert ([e] + script)[..0] == [];
    } else {
      var rest := script[..|script| - 1];
      CostFromFront(rest, e);
      assert ([e] + script)[..|script|] == [e] + rest;
    }
  }

  lemma Prepended(script: seq<Edit>, e: Edit)
    ensures Source([e] + script) == e.Reads() + Source(script)
    ensures Target([e] + script) == e.Writes() + Target(script)
    ensures Cost([e] + script) == e.Price() + Cost(script)
  {
    GatheredFromFront(script, e, ReadsOf);
    GatheredFromFront(script, e, WritesOf);
    CostFromFront(script, e);
  }

  lemma ReadsMirrored(e: Edit)
    ensures e.Mirrored().Reads() == Reversed(e.Reads())
    ensures e.Mirrored().Writes() == Reversed(e.Writes())
    ensures e.Mirrored().Price() == e.Price()
  {
  }

  lemma {:induction false} MirroredTransforms(script: seq<Edit>)
    ensures Source(MirroredScript(script)) == Reversed(Source(script))
    ensures Target(MirroredScript(script)) == Reversed(Target(script))
    ensures Cost(MirroredScript(script)) == Cost(script)
  {
    if script != [] {
      var rest, e := script[..|script| - 1], script[|script| - 1];
      MirroredTransforms(rest);
      Prepended(MirroredScript(rest), e.Mirrored());
      ReadsMirrored(e);
      ReversedAppend(Source(rest), e.Reads());
      ReversedAppend(Target(rest), e.Writes());
    }
  }

  lemma OsaReversed(a: string, b: string)
    ensures Osa(Reversed(a), Reversed(b)) == Osa(a, b)
  {
    var script := BestScript(a, b);
    MirroredTransforms(script);
    NoScriptIsCheaper(MirroredScript(script));
    var back := BestScript(Reversed(a), Reversed(b));
    MirroredTransforms(back);
    NoScriptIsCheaper(MirroredScript(back));
    ReversedTwice(a);
    ReversedTwice(b);
  }

  lemma PrefixCancels(c: char, a: string, b: string)
    ensures Osa([c] + a, [c] + b) == Osa(a, b)
  {
    ReversedAppend([c], a);
    ReversedAppend([c], b);
    assert Reversed([c]) == [c];
    OsaReversed([c] + a, [c] + b);
    SuffixCancels(Reversed(a), Reversed(b), c);
    OsaReversed(a, b);
  }

  lemma {:induction false} EqualIsFree(a: string)
    ensures Osa(a, a) == 0
  {
    if a == "" {
      Recurrence(a, a, 0, 0);
    } else {
      EqualIsFree(a[1..]);
      PrefixCancels(a[0], a[1..], a[1..]);
      assert a == [a[0]] + a[1..];
    }
  }

  /** Only equal strings are at no distance. */
  lemma NoDistanceIfEqual(a: string, b: string)
    ensures Osa(a, b) == 0 <==> a == b
  {
    if a == b {
      EqualIsFree(a);
    } else {
      var script := BestScript(a, b);
      FreeScriptsChangeNothing(script);
    }
  }

  /** One substitution, insertion, deletion or swap of neighbours that changes anything costs one. */
  lemma OneEditCostsOne(c: char, d: char)
    requires c != d
    ensures Osa([c], [d]) == Osa("", [c]) == Osa([c], "") == Osa([c, d], [d, c]) == 1
  {
    OneEdit(Substitute(c, d));
    OneEdit(Insert(c));
    OneEdit(Delete(c));
    assert [c, d][0] != [d, c][0];
    OneEdit(Swap(c, d));
  }

  lemma OneEdit(e: Edit)
    requires e.Reads() != e.Writes()
    ensures 0 < Osa(e.Reads(), e.Writes()) <= 1
  {
    Appended([], e);
    assert [] + [e] == [e];
    assert "" + e.Reads() == e.Reads() && "" + e.Writes() == e.Writes();
    NoScriptIsCheaper([e]);
    NoDistanceIfEqual(e.Reads(), e.Writes());
  }
}

module EditDistance {
  import opened Alignment

  /** `row[j] := x` on an array that grows when the index is its length. */
  function Put(row: seq<nat>, j: nat, x: nat): (r: seq<nat>)
    requires j <= |row|
    ensures |r| == if j < |row| then |row| else |row| + 1
    ensures r[j] == x && forall i | 0 <= i < |row| && i != j :: r[i] == row[i]
  {
    if j < |row| then row[j := x] else row + [x]
  }

  /** The first `upTo` entries of `row` are the distances from `i` characters of `a` to the prefixes of `b`. */
  ghost predicate IsRow(row: seq<nat>, a: string, b: string, i: nat, upTo: nat) {
    && i <= |a| && upTo <= |row| && upTo <= |b| + 1
    && forall j | 0 <= j < upTo :: row[j] == Prefixes(a, b, i, j)
  }

  class EditDistanceState {
    /** Three rows that keep whatever an earlier call left in them. */
    var current: seq<nat>
    var prev: seq<nat>
    var prevPrev: seq<nat>
    /** The filler of a row that is never read, `Number.MAX_VALUE`. */
    const maxValue: nat

    constructor (maxValue: nat)
      ensures current == prev == prevPrev == []
    {
      current, prev, prevPrev := [], [], [];
      this.maxValue := maxValue;
    }

    method Calculate(first: string, second: string, limit: int) returns (r: int)
      modifies this
      ensures r == Min(Osa(first, second), limit + 1)
    {
      hide Prefixes;
      var a, b := first, second;
      if |a| < |b| {
        a, b := b, a;
      }
      OsaSymmetric(first, second);
      var minDist := |a| - |b|;
      LengthGapBound(a, b, |a|, |b|);
      if minDist > limit {
        return limit + 1;
      }
      ghost var goal := Osa(first, second);
      while |b| > 0 && b[0] == a[0]
        invariant |a| - |b| == minDist && Osa(a, b) == goal
        decreases |b|
      {
        PrefixCancels(b[0], a[1..], b[1..]);
        assert a == [b[0]] + a[1..] && b == [b[0]] + b[1..];
        a := a[1..];
        b := b[1..];
      }
      while |b| > 0 && b[|b| - 1] == a[|a| - 1]
        invariant |a| - |b| == minDist && Osa(a, b) == goal
        decreases |b|
      {
        SuffixCancels(a[..|a| - 1], b[..|b| - 1], b[|b| - 1]);
        assert a == a[..|a| - 1] + [b[|b| - 1]] && b == b[..|b| - 1] + [b[|b| - 1]];
        a := a[..|a| - 1];
        b := b[..|b| - 1];
      }
      if |b| == 0 {
        AgainstNothing(a, b);
        return minDist;
      }
      Start(a, b);
      var i := 1;
      while i <= |a|
        invariant 1 <= i <= |a| + 1
        invariant IsRow(prev, a, b, i - 1, |b| + 1)
        invariant |current| > |b| && |prevPrev| > |b|
        invariant i > 1 ==> IsRow(prevPrev, a, b, i - 2, |b| + 1)
      {
        FillRow(a, b, i);
        var prevPrevTmp := prevPrev;
        prevPrev := prev;
        prev := current;
        current := prevPrevTmp;
        i := i + 1;
      }
      var distance := prev[|b|];
      r := if distance <= limit then distance else limit + 1;
    }

    /** Sets up the row for the empty prefix of `a`; the other two rows only get long enough. */
    method Start(ghost a: string, b: string)
      modifies this
      ensures IsRow(prev, a, b, 0, |b| + 1)
      ensures |current| > |b| && |prevPrev| > |b|
    {
      var i := 0;
      while i <= |b|
        invariant 0 <= i <= |b| + 1
        invariant |current| >= i && |prev| >= i && |prevPrev| >= i
        invariant forall j | 0 <= j < i :: prev[j] == j
      {
        current := Put(current, i, 0);
        prev := Put(prev, i, i);
        prevPrev := Put(prevPrev, i, maxValue);
        i := i + 1;
      }
    }

    /** Computes the row for the first `i` characters of `a` from the two rows before it. */
    method FillRow(a: string, b: string, i: nat)
      requires 1 <= i <= |a|
      requires IsRow(prev, a, b, i - 1, |b| + 1) && |current| > |b|
      requires i > 1 ==> IsRow(prevPrev, a, b, i - 2, |b| + 1)
      modifies this`current
      ensures IsRow(current, a, b, i, |b| + 1)
    {
      hide Prefixes;
      Recurrence(a, b, i, 0);
      current := Put(current, 0, i);
      var j := 1;
      while j <= |b|
        invariant 1 <= j <= |b| + 1 && |current| > |b|
        invariant IsRow(current, a, b, i, j)
      {
        var x := NextEntry(a, b, i, j);
        current := Put(current, j, x);
        j := j + 1;
      }
    }

    /** One entry from the entries above, to the left and diagonal, and two up and left for a swap. */
    method NextEntry(a: string, b: string, i: nat, j: nat) returns (x: nat)
      requires 1 <= i <= |a| && 1 <= j <= |b|
      requires IsRow(prev, a, b, i - 1, |b| + 1) && IsRow(current, a, b, i, j)
      requires i > 1 ==> IsRow(prevPrev, a, b, i - 2, |b| + 1)
      ensures x == Prefixes(a, b, i, j)
    {
      hide Prefixes;
      Recurrence(a, b, i, j);
      var aIdx, bIdx := i - 1, j - 1;
      var substitutionCost := if a[aIdx] == b[bIdx] then 0 else 1;
      x := Combined(prev[j], current[j - 1], prev[j - 1], substitutionCost);
      if i > 1 && j > 1 && a[aIdx] == b[bIdx - 1] && a[aIdx - 1] == b[bIdx] {
        x := Min(x, prevPrev[j - 2] + 1);
      }
    }
  }
}
