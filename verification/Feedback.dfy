/**
 Feedback of the scenario tester: merging near-duplicate observations, and reading `[FEEDBACK]`
 blocks out of a model's reply.
 */
module WordOverlap {
  import opened Basics

  /** Jaccard similarity of two word sets; nothing is similar to an empty one. */
  function Overlap(a: set<string>, b: set<string>): real {
    if a == {} || b == {} then 0.0
    else
      UnionIsNotEmpty(a, b);
      |a * b| as real / |a + b| as real
  }

  lemma UnionIsNotEmpty(a: set<string>, b: set<string>)
    requires a != {}
    ensures |a + b| > 0
  {
    var w :| w in a;
    assert w in a + b;
  }

  /** `Overlap(a, b) > p/q` without the division. */
  lemma OverlapAbove(a: set<string>, b: set<string>, p: int, q: int)
    requires 0 <= p && 0 < q
    ensures Overlap(a, b) > p as real / q as real <==> q * |a * b| > p * |a + b| && a != {} && b != {}
  {
    if a != {} && b != {} {
      UnionIsNotEmpty(a, b);
      var i, u := |a * b| as real, |a + b| as real;
      Fractions(i, u, p as real, q as real);
      assert q as real * i == (q * |a * b|) as real && p as real * u == (p * |a + b|) as real;
    } else {
      assert p as real / q as real >= 0.0;
    }
  }

  lemma Fractions(i: real, u: real, p: real, q: real)
    requires u > 0.0 && q > 0.0
    ensures i / u > p / q <==> q * i > p * u
  {
    var x, y := i / u, p / q;
    assert i == x * u && p == y * q;
    assert q * i - p * u == (x - y) * (q * u);
    Sign(x - y, q * u);
  }

  lemma Sign(d: real, w: real)
    requires w > 0.0
    ensures d * w > 0.0 <==> d > 0.0
  {
  }

  lemma UnionSize(a: set<string>, b: set<string>)
    ensures |a + b| + |a * b| == |a| + |b|
  {
    assert a + b == a + (b - a);
    assert b == (b - a) + (a * b);
  }

  /**
   Two sets that each share more than four fifths with a third share more than three fifths with
   each other: the triangle inequality of the Jaccard distance, at these thresholds.
   */
  lemma OverlapTriangle(a: set<string>, r: set<string>, b: set<string>)
    requires Overlap(a, r) > 0.8 && Overlap(b, r) > 0.8
    ensures Overlap(a, b) > 0.6
  {
    OverlapAbove(a, r, 4, 5);
    OverlapAbove(b, r, 4, 5);
    OverlapAbove(a, b, 3, 5);
    UnionSize(a, r);
    UnionSize(b, r);
    UnionSize(a, b);
    UnionSize(a * r, b * r);
    SubsetSize(a * r + b * r, r);
    SubsetSize((a * r) * (b * r), a * b);
    SubsetSize(a * r, a);
    SubsetSize(b * r, b);
  }
}

module FeedbackDedup {
  import FreeNames
  import opened Wrappers
  import opened WordOverlap

  datatype Category = Usability | Correctness | Ergonomics | Security | Performance

  datatype Severity = Info | Warning | Error

  datatype Entry = Entry(scenario: string, turn: nat, category: Category, severity: Severity,
                         observation: string, suggestion: Option<string>, context: Option<string>)

  /** The entry that stands for a group of `count` entries. */
  function Labelled(e: Entry, count: nat): Entry {
    if count > 1 then e.(observation := e.observation + " (observed " + FreeNames.Decimal(count) + " times)") else e
  }

  /** `words` is the set of lower-cased words of a text. */
  ghost predicate Mergeable(words: string -> set<string>, existing: Entry, e: Entry) {
    existing.category == e.category && Overlap(words(existing.observation), words(e.observation)) > 0.8
  }

  /** Same category, and more than four fifths of all the words of the two in common. */
  lemma MergeableExactly(words: string -> set<string>, a: Entry, b: Entry)
    ensures var x, y := words(a.observation), words(b.observation);
      Mergeable(words, a, b) <==> a.category == b.category && x != {} && y != {} && 5 * |x * y| > 4 * |x + y|
  {
    OverlapAbove(words(a.observation), words(b.observation), 4, 5);
  }

  /** For each group the position of its representative, and for each entry its group. */
  datatype Grouping = Grouping(reps: seq<nat>, homes: seq<nat>)

  ghost predicate Below(reps: seq<nat>, n: nat) {
    forall g | 0 <= g < |reps| :: reps[g] < n
  }

  /** The first group whose representative merges with `e`, or the number of groups. */
  ghost predicate IsHome(words: string -> set<string>, es: seq<Entry>, reps: seq<nat>, e: Entry, g: nat) {
    && g <= |reps|
    && Below(reps, |es|)
    && (g < |reps| ==> Mergeable(words, es[reps[g]], e))
    && (forall h | 0 <= h < g :: !Mergeable(words, es[reps[h]], e))
  }

  ghost function Home(words: string -> set<string>, es: seq<Entry>, reps: seq<nat>, e: Entry): (g: nat)
    requires Below(reps, |es|)
    ensures IsHome(words, es, reps, e, g)
  {
    if reps == [] then 0
    else
      var n := |reps| - 1;
      var g := Home(words, es, reps[..n], e);
      if g < n || Mergeable(words, es[reps[n]], e) then g else n + 1
  }

  /** The grouping with one more entry, which joins group `k` or opens it. */
  function Extended(r: Grouping, k: nat): Grouping {
    Grouping(if k < |r.reps| then r.reps else r.reps + [|r.homes|], r.homes + [k])
  }

  /** Greedy grouping of the first `n` entries. */
  ghost function Grouped(words: string -> set<string>, es: seq<Entry>, n: nat): (r: Grouping)
    requires n <= |es|
    ensures Below(r.reps, n) && |r.homes| == n
  {
    if n == 0 then Grouping([], [])
    else
      var before := Grouped(words, es, n - 1);
      var g := Home(words, es, before.reps, es[n - 1]);
      Extended(before, g)
  }

  /** Entry `i` is its group's representative or merges with it, and merges with no earlier one. */
  ghost predicate Placed(words: string -> set<string>, es: seq<Entry>, r: Grouping, i: nat)
    requires i < |r.homes| <= |es| && Below(r.reps, |es|)
  {
    && r.homes[i] < |r.reps|
    && r.reps[r.homes[i]] <= i
    && (i == r.reps[r.homes[i]] || Mergeable(words, es[r.reps[r.homes[i]]], es[i]))
    && forall h | 0 <= h < r.homes[i] :: !Mergeable(words, es[r.reps[h]], es[i])
  }

  /** Group `g` contains its representative, which occurs after those of the groups before. */
  ghost predicate Leads(r: Grouping, g: nat)
    requires g < |r.reps| && Below(r.reps, |r.homes|)
  {
    && r.homes[r.reps[g]] == g
    && forall h | 0 <= h < g :: r.reps[h] < r.reps[g]
  }

  /** A partition of the first `n` entries, with representatives in order of first occurrence. */
  ghost predicate WellGrouped(words: string -> set<string>, es: seq<Entry>, r: Grouping, n: nat)
    requires n <= |es|
  {
    && |r.homes| == n && Below(r.reps, n)
    && (forall i {:trigger Placed(words, es, r, i)} | 0 <= i < n :: Placed(words, es, r, i))
    && (forall g {:trigger Leads(r, g)} | 0 <= g < |r.reps| :: Leads(r, g))
  }

  lemma PlacedKept(words: string -> set<string>, es: seq<Entry>, r: Grouping, r': Grouping, i: nat)
    requires i < |r.homes| <= |es| && Below(r.reps, |es|) && Placed(words, es, r, i)
    requires r.homes <= r'.homes && r.reps <= r'.reps && |r'.homes| <= |es| && Below(r'.reps, |es|)
    ensures Placed(words, es, r', i)
  {
  }

  lemma LeadsKept(r: Grouping, r': Grouping, g: nat)
    requires g < |r.reps| && Below(r.reps, |r.homes|) && Leads(r, g)
    requires r.homes <= r'.homes && r.reps <= r'.reps && Below(r'.reps, |r'.homes|)
    ensures Leads(r', g)
  {
  }

  lemma NewEntryPlaced(words: string -> set<string>, es: seq<Entry>, r: Grouping, k: nat)
    requires |r.homes| < |es| && IsHome(words, es, r.reps, es[|r.homes|], k) && Below(r.reps, |r.homes|)
    ensures Below(Extended(r, k).reps, |es|) && Placed(words, es, Extended(r, k), |r.homes|)
  {
    hide Mergeable;
  }

  lemma NewGroupLeads(r: Grouping, k: nat)
    requires Below(r.reps, |r.homes|) && k == |r.reps|
    ensures Below(Extended(r, k).reps, |r.homes| + 1) && Leads(Extended(r, k), k)
  {
  }

  lemma ExtendedIsWellGrouped(words: string -> set<string>, es: seq<Entry>, r: Grouping, k: nat)
    requires |r.homes| < |es| && WellGrouped(words, es, r, |r.homes|)
    requires IsHome(words, es, r.reps, es[|r.homes|], k)
    ensures WellGrouped(words, es, Extended(r, k), |r.homes| + 1)
  {
    hide Placed, Leads, IsHome;
    var n, r' := |r.homes|, Extended(r, k);
    forall i | 0 <= i < n + 1 ensures Placed(words, es, r', i) {
      if i < n {
        PlacedKept(words, es, r, r', i);
      } else {
        NewEntryPlaced(words, es, r, k);
      }
    }
    forall g | 0 <= g < |r'.reps| ensures Leads(r', g) {
      if g < |r.reps| {
        LeadsKept(r, r', g);
      } else {
        HomeInRange(words, es, r, k);
        NewGroupLeads(r, k);
      }
    }
  }

  lemma HomeInRange(words: string -> set<string>, es: seq<Entry>, r: Grouping, k: nat)
    requires |r.homes| < |es| && IsHome(words, es, r.reps, es[|r.homes|], k)
    ensures k <= |r.reps|
  {
  }

  /** The greedy grouping partitions its input. */
  lemma {:induction false} GroupedIsWellGrouped(words: string -> set<string>, es: seq<Entry>, n: nat)
    requires n <= |es|
    ensures WellGrouped(words, es, Grouped(words, es, n), n)
  {
    if n > 0 {
      GroupedIsWellGrouped(words, es, n - 1);
      var before := Grouped(words, es, n - 1);
      var k := Home(words, es, before.reps, es[n - 1]);
      ExtendedIsWellGrouped(words, es, before, k);
    }
  }

  /** No two representatives merge. */
  lemma RepresentativesStayApart(words: string -> set<string>, es: seq<Entry>, g: nat, h: nat)
    requires g < h < |Grouped(words, es, |es|).reps|
    ensures Below(Grouped(words, es, |es|).reps, |es|)
    ensures var reps := Grouped(words, es, |es|).reps;
      var a, b := es[reps[g]], es[reps[h]];
      var x, y := words(a.observation), words(b.observation);
      && reps[g] < reps[h] && !Mergeable(words, a, b)
      && (a.category != b.category || x == {} || y == {} || 5 * |x * y| <= 4 * |x + y|)
  {
    var reps := Grouped(words, es, |es|).reps;
    MergeableExactly(words, es[reps[g]], es[reps[h]]);
    GroupedIsWellGrouped(words, es, |es|);
    var r := Grouped(words, es, |es|);
    assert Leads(r, h) && Placed(words, es, r, r.reps[h]);
  }

  /** The number of entries of group `g`. */
  function Count(homes: seq<nat>, g: nat): nat {
    if homes == [] then 0 else Count(homes[..|homes| - 1], g) + if homes[|homes| - 1] == g then 1 else 0
  }

  function TotalCount(homes: seq<nat>, groups: nat): nat {
    if groups == 0 then 0 else TotalCount(homes, groups - 1) + Count(homes, groups - 1)
  }

  lemma {:induction false} TotalCountAppend(homes: seq<nat>, h: nat, groups: nat)
    ensures TotalCount(homes + [h], groups) == TotalCount(homes, groups) + if h < groups then 1 else 0
  {
    if groups > 0 {
      TotalCountAppend(homes, h, groups - 1);
      assert (homes + [h])[..|homes|] == homes;
    }
  }

  lemma {:induction false} CountsAddUp(homes: seq<nat>, groups: nat)
    requires forall i | 0 <= i < |homes| :: homes[i] < groups
    ensures TotalCount(homes, groups) == |homes|
  {
    if homes == [] {
      NothingCounted(groups);
    } else {
      var n := |homes| - 1;
      CountsAddUp(homes[..n], groups);
      TotalCountAppend(homes[..n], homes[n], groups);
      assert homes == homes[..n] + [homes[n]];
    }
  }

  lemma {:induction false} NothingCounted(groups: nat)
    ensures TotalCount([], groups) == 0
  {
    if groups > 0 {
      NothingCounted(groups - 1);
    }
  }

  /** The counts of the greedy grouping add up to the number of entries. */
  lemma GroupCountsAddUp(words: string -> set<string>, es: seq<Entry>)
    ensures var r := Grouped(words, es, |es|); TotalCount(r.homes, |r.reps|) == |es|
  {
    GroupedIsWellGrouped(words, es, |es|);
    var r := Grouped(words, es, |es|);
    forall i | 0 <= i < |es| ensures r.homes[i] < |r.reps| {
      assert Placed(words, es, r, i);
    }
    CountsAddUp(r.homes, |r.reps|);
  }

  /** Members of one group belong to one category and share more than three fifths of their words. */
  lemma GroupMembersAreClose(words: string -> set<string>, es: seq<Entry>, i: nat, j: nat)
    requires i < j < |es|
    requires var homes := Grouped(words, es, |es|).homes; homes[i] == homes[j]
    ensures es[i].category == es[j].category
    ensures Overlap(words(es[i].observation), words(es[j].observation)) > 0.6
  {
    hide Overlap, Grouped;
    GroupedIsWellGrouped(words, es, |es|);
    var r := Grouped(words, es, |es|);
    assert Placed(words, es, r, i) && Placed(words, es, r, j);
    var rep := r.reps[r.homes[i]];
    assert Leads(r, r.homes[i]);
    if i != rep {
      OverlapTriangleFrom(words(es[rep].observation), words(es[i].observation), words(es[j].observation));
    }
  }

  lemma OverlapTriangleFrom(r: set<string>, a: set<string>, b: set<string>)
    requires Overlap(r, a) > 0.8 && Overlap(r, b) > 0.8
    ensures Overlap(a, b) > 0.6
  {
    assert r * a == a * r && r + a == a + r && r * b == b * r && r + b == b + r;
    OverlapTriangle(a, r, b);
  }

  /** What the deduplicated list looks like before the counts are written into the texts. */
  ghost predicate Counted(es: seq<Entry>, r: Grouping, deduped: seq<(Entry, nat)>) {
    && |deduped| == |r.reps|
    && forall g | 0 <= g < |deduped| ::
         r.reps[g] < |es| && deduped[g] == (es[r.reps[g]], Count(r.homes, g))
  }

  lemma CountAppend(homes: seq<nat>, h: nat, g: nat)
    ensures Count(homes + [h], g) == Count(homes, g) + if h == g then 1 else 0
  {
    assert (homes + [h])[..|homes|] == homes;
  }

  lemma {:induction false} CountAboveIsZero(homes: seq<nat>, g: nat)
    requires forall i | 0 <= i < |homes| :: homes[i] < g
    ensures Count(homes, g) == 0
  {
    if homes != [] {
      CountAboveIsZero(homes[..|homes| - 1], g);
    }
  }

  /** The list with one more entry, which joins group `k` or opens a new one. */
  function Joined(deduped: seq<(Entry, nat)>, k: nat, e: Entry): seq<(Entry, nat)>
    requires k <= |deduped|
  {
    if k < |deduped| then deduped[k := (deduped[k].0, deduped[k].1 + 1)] else deduped + [(e, 1)]
  }

  lemma CountedJoins(es: seq<Entry>, r: Grouping, deduped: seq<(Entry, nat)>, k: nat)
    requires Counted(es, r, deduped) && k < |deduped|
    ensures Counted(es, Grouping(r.reps, r.homes + [k]), Joined(deduped, k, deduped[k].0))
  {
    forall g | 0 <= g < |deduped| ensures Count(r.homes + [k], g) == Count(r.homes, g) + if k == g then 1 else 0 {
      CountAppend(r.homes, k, g);
    }
  }

  lemma CountedOpens(es: seq<Entry>, r: Grouping, deduped: seq<(Entry, nat)>, n: nat)
    requires Counted(es, r, deduped) && n < |es|
    requires forall i | 0 <= i < |r.homes| :: r.homes[i] < |deduped|
    ensures Counted(es, Grouping(r.reps + [n], r.homes + [|deduped|]), Joined(deduped, |deduped|, es[n]))
  {
    var k := |deduped|;
    forall g | 0 <= g <= k ensures Count(r.homes + [k], g) == Count(r.homes, g) + if k == g then 1 else 0 {
      CountAppend(r.homes, k, g);
    }
    CountAboveIsZero(r.homes, k);
  }

  lemma CountedSteps(words: string -> set<string>, es: seq<Entry>, n: nat, deduped: seq<(Entry, nat)>, k: nat)
    requires n < |es| && Counted(es, Grouped(words, es, n), deduped)
    requires IsHome(words, es, Grouped(words, es, n).reps, es[n], k)
    ensures Counted(es, Grouped(words, es, n + 1), Joined(deduped, k, es[n]))
  {
    var r := Grouped(words, es, n);
    HomeIsUnique(words, es, r.reps, es[n], k, Home(words, es, r.reps, es[n]));
    if k < |deduped| {
      CountedJoins(es, r, deduped, k);
    } else {
      GroupedIsWellGrouped(words, es, n);
      forall i | 0 <= i < |r.homes| ensures r.homes[i] < k {
        assert Placed(words, es, r, i);
      }
      CountedOpens(es, r, deduped, n);
    }
  }

  lemma HomeIsUnique(words: string -> set<string>, es: seq<Entry>, reps: seq<nat>, e: Entry, g: nat, h: nat)
    requires IsHome(words, es, reps, e, g) && IsHome(words, es, reps, e, h)
    ensures g == h
  {
  }

  lemma {:induction false} MemberIsCounted(homes: seq<nat>, i: nat)
    requires i < |homes|
    ensures Count(homes, homes[i]) >= 1
  {
    var n := |homes| - 1;
    if i < n {
      MemberIsCounted(homes[..n], i);
    }
  }

  /** The entry for a group of `count` entries: the representative, and from two on the number in its text. */
  ghost predicate StandsFor(out: Entry, rep: Entry, count: nat) {
    && count >= 1
    && (count == 1 ==> out == rep)
    && (count >= 2 ==>
          out == rep.(observation := rep.observation + " (observed " + FreeNames.Decimal(count) + " times)"))
  }

  lemma LabelledGroup(words: string -> set<string>, es: seq<Entry>, g: nat)
    requires g < |Grouped(words, es, |es|).reps|
    ensures var r := Grouped(words, es, |es|);
      r.reps[g] < |es| && StandsFor(Labelled(es[r.reps[g]], Count(r.homes, g)), es[r.reps[g]], Count(r.homes, g))
  {
    hide Grouped;
    GroupedIsWellGrouped(words, es, |es|);
    var r := Grouped(words, es, |es|);
    assert Leads(r, g);
    MemberIsCounted(r.homes, r.reps[g]);
  }

  lemma NothingGrouped(words: string -> set<string>, es: seq<Entry>)
    ensures Grouped(words, es, 0) == Grouping([], [])
  {
  }

  class FeedbackCollector {
    var entries: seq<Entry>
    const words: string -> set<string>

    constructor (words: string -> set<string>)
      ensures entries == [] && this.words == words
    {
      entries := [];
      this.words := words;
    }

    method Add(e: Entry)
      modifies this
      ensures entries == old(entries) + [e]
    {
      entries := entries + [e];
    }

    /** Merges `entry` into the first group that takes it, or appends it. */
    method Merge(deduped: seq<(Entry, nat)>, entry: Entry, ghost es: seq<Entry>, ghost r: Grouping)
      returns (deduped': seq<(Entry, nat)>, ghost home: nat)
      requires Counted(es, r, deduped)
      ensures IsHome(words, es, r.reps, entry, home) && deduped' == Joined(deduped, home, entry)
    {
      var k := 0;
      while k < |deduped|
        invariant 0 <= k <= |deduped|
        invariant forall h | 0 <= h < k :: !Mergeable(words, es[r.reps[h]], entry)
      {
        var existing := deduped[k].0;
        if existing.category == entry.category
           && Overlap(words(existing.observation), words(entry.observation)) > 0.8 {
          return deduped[k := (existing, deduped[k].1 + 1)], k;
        }
        k := k + 1;
      }
      return deduped + [(entry, 1)], k;
    }

    method LabelAll(deduped: seq<(Entry, nat)>) returns (out: seq<Entry>)
      ensures |out| == |deduped|
      ensures forall g | 0 <= g < |out| :: out[g] == Labelled(deduped[g].0, deduped[g].1)
    {
      out := [];
      var j := 0;
      while j < |deduped|
        invariant 0 <= j <= |deduped| && |out| == j
        invariant forall g | 0 <= g < j :: out[g] == Labelled(deduped[g].0, deduped[g].1)
      {
        out := out + [Labelled(deduped[j].0, deduped[j].1)];
        j := j + 1;
      }
    }

    /** One labelled representative for each group of the greedy grouping. */
    method Deduplicate()
      modifies this
      ensures var r := Grouped(words, old(entries), |old(entries)|);
        && WellGrouped(words, old(entries), r, |old(entries)|)
        && |entries| == |r.reps|
        && forall g | 0 <= g < |r.reps| ::
             StandsFor(entries[g], old(entries)[r.reps[g]], Count(r.homes, g))
    {
      hide StandsFor, Grouped;
      var drained := entries;
      var deduped: seq<(Entry, nat)> := [];
      var i: nat := 0;
      NothingGrouped(words, drained);
      while i < |drained|
        invariant i <= |drained|
        invariant Counted(drained, Grouped(words, drained, i), deduped)
      {
        ghost var before := deduped;
        ghost var k;
        deduped, k := Merge(deduped, drained[i], drained, Grouped(words, drained, i));
        CountedSteps(words, drained, i, before, k);
        i := i + 1;
      }
      GroupedIsWellGrouped(words, drained, |drained|);
      ghost var r := Grouped(words, drained, |drained|);
      forall g | 0 <= g < |r.reps|
        ensures StandsFor(Labelled(drained[r.reps[g]], Count(r.homes, g)), drained[r.reps[g]], Count(r.homes, g))
      {
        LabelledGroup(words, drained, g);
      }
      entries := LabelAll(deduped);
    }
  }
}
